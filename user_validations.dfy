/**
 * The zod schemas for the login code and for user registration, as the list
 * of issue messages each one reports (zod runs every string check and keeps
 * every failure, in the order the checks are declared). A value is accepted
 * when the list is empty; a form shows the first message.
 */
module UserValidations {

  const RequiredMessage := "Campo obrigatório"
  const CodeLengthMessage := "O código do usuário deve ter exatamente 8 caracteres"
  const CodePatternMessage := "O código deve conter apenas letras maiúsculas e números"
  const NameRequiredMessage := "O nome é obrigatório."
  const CodeNameLengthMessage := "O código deve ter exatamente 8 caracteres."
  const CodeNamePatternMessage := "O código deve conter apenas letras maiúsculas e números."

  const CodeLength: nat := 8

  predicate IsUpperAlnum(c: char) {
    ('A' <= c <= 'Z') || ('0' <= c <= '9')
  }

  /** `/^[A-Z0-9]+$/.test(s)` */
  predicate MatchesCodePattern(s: string) {
    |s| > 0 && forall i :: 0 <= i < |s| ==> IsUpperAlnum(s[i])
  }

  /** `userCodeSchema` on the field `codeUser`: `nonempty`, then `length(8)`, then the pattern. */
  function UserCodeIssues(codeUser: string): (issues: seq<string>)
    ensures |issues| <= 3
    ensures codeUser == "" ==> issues == [RequiredMessage, CodeLengthMessage, CodePatternMessage]
    ensures |codeUser| != CodeLength <==> CodeLengthMessage in issues
  {
    (if |codeUser| < 1 then [RequiredMessage] else []) +
    (if |codeUser| != CodeLength then [CodeLengthMessage] else []) +
    (if !MatchesCodePattern(codeUser) then [CodePatternMessage] else [])
  }

  predicate UserCodeAccepted(codeUser: string) {
    UserCodeIssues(codeUser) == []
  }

  /** A login code is accepted exactly when it has eight characters, each A–Z or 0–9. */
  lemma UserCodeAcceptedIff(codeUser: string)
    ensures UserCodeAccepted(codeUser) <==>
      |codeUser| == 8 && forall i :: 0 <= i < |codeUser| ==> IsUpperAlnum(codeUser[i])
  {
  }

  /** A lower-case letter fails the pattern, whatever the length. */
  lemma LowerCaseRejected(codeUser: string, k: nat)
    requires k < |codeUser| && 'a' <= codeUser[k] <= 'z'
    ensures CodePatternMessage in UserCodeIssues(codeUser)
    ensures !UserCodeAccepted(codeUser)
  {
    assert !IsUpperAlnum(codeUser[k]);
  }

  /** ASCII upper-casing of one character, as the login field applies it on every change. */
  function UpperChar(c: char): (u: char)
    ensures 'a' <= c <= 'z' ==> 'A' <= u <= 'Z'
    ensures !('a' <= c <= 'z') ==> u == c
  {
    if 'a' <= c <= 'z' then (c as int - 32) as char else c
  }

  /** `value.toUpperCase()` on ASCII text. */
  function ToUpper(s: string): (r: string)
    ensures |r| == |s|
    ensures forall i :: 0 <= i < |s| ==> r[i] == UpperChar(s[i])
  {
    if s == [] then [] else [UpperChar(s[0])] + ToUpper(s[1..])
  }

  predicate IsAsciiAlnum(c: char) {
    ('a' <= c <= 'z') || ('A' <= c <= 'Z') || ('0' <= c <= '9')
  }

  /** Eight letters and digits in any case are accepted once the form has upper-cased them. */
  lemma UpperCasedCodeAccepted(typed: string)
    requires |typed| == 8 && forall i :: 0 <= i < |typed| ==> IsAsciiAlnum(typed[i])
    ensures UserCodeAccepted(ToUpper(typed))
  {
    var u := ToUpper(typed);
    assert forall i :: 0 <= i < |u| ==> IsUpperAlnum(u[i]);
  }

  lemma SampleCodeAccepted()
    ensures UserCodeAccepted("ABCD1234")
    ensures ToUpper("abcd1234") == "ABCD1234"
  {
    var typed, upper := "abcd1234", "ABCD1234";
    var u := ToUpper(typed);
    forall i | 0 <= i < 8 ensures u[i] == upper[i] {
      assert u[i] == UpperChar(typed[i]);
    }
    assert u == upper;
    assert MatchesCodePattern(upper);
  }

  /** `userSchema`: a non-empty `name` and a `code_name` held to the same rule as the login code. */
  function UserIssues(name: string, codeName: string): (issues: seq<string>)
    ensures |issues| <= 3
    ensures name == "" ==> |issues| > 0 && issues[0] == NameRequiredMessage
  {
    (if |name| < 1 then [NameRequiredMessage] else []) +
    (if |codeName| != CodeLength then [CodeNameLengthMessage] else []) +
    (if !MatchesCodePattern(codeName) then [CodeNamePatternMessage] else [])
  }

  predicate UserAccepted(name: string, codeName: string) {
    UserIssues(name, codeName) == []
  }

  /** A user is registrable exactly when the name is non-empty and the code is a valid login code. */
  lemma RegistrableCodesAreLoginCodes(name: string, codeName: string)
    ensures UserAccepted(name, codeName) <==> name != "" && UserCodeAccepted(codeName)
  {
  }
}
