/** The zod schema for a session payload: three required strings, nothing more. */
module SessionSchema {

  const CodeNameRequired := "Code Name é obrigatório"
  const StartTimeRequired := "Start Time é obrigatório"
  const EndTimeRequired := "End Time é obrigatório"

  /** `sessionSchema`'s issues, field by field in declaration order. */
  function SessionIssues(codeName: string, startTime: string, endTime: string): (issues: seq<string>)
    ensures issues == [] <==> codeName != "" && startTime != "" && endTime != ""
    ensures codeName == "" <==> CodeNameRequired in issues
    ensures startTime == "" <==> StartTimeRequired in issues
    ensures endTime == "" <==> EndTimeRequired in issues
    ensures codeName == "" ==> |issues| > 0 && issues[0] == CodeNameRequired
  {
    (if codeName == "" then [CodeNameRequired] else []) +
    (if startTime == "" then [StartTimeRequired] else []) +
    (if endTime == "" then [EndTimeRequired] else [])
  }

  /** Any non-empty strings pass: neither the date format nor start before end is checked. */
  lemma NoFormatCheck(codeName: string, startTime: string, endTime: string)
    requires codeName != "" && startTime != "" && endTime != ""
    ensures SessionIssues(codeName, startTime, endTime) == []
    ensures SessionIssues(codeName, endTime, startTime) == []
  {
  }
}
