/**
 * The "{hours}h {minutes}m" text that every duration in the app is shown as,
 * and the integer arithmetic behind it.
 */
module DurationText {
  import opened Wrappers
  import opened Decimal

  const MsPerMinute: int := 1000 * 60
  const MsPerHour: int := 1000 * 60 * 60

  /** `Math.trunc(a / b)` for a positive divisor: the quotient rounded toward zero. */
  function JsTruncDiv(a: int, b: int): (q: int)
    requires b > 0
    ensures a >= 0 ==> q * b <= a < (q + 1) * b
    ensures a < 0 ==> (q - 1) * b < a <= q * b
  {
    if a >= 0 then a / b else -((-a) / b)
  }

  /** JavaScript's `a % b` for a positive divisor: `a - b * trunc(a / b)`, so it takes the sign of `a`. */
  function JsRem(a: int, b: int): (r: int)
    requires b > 0
    ensures a == JsTruncDiv(a, b) * b + r
    ensures a >= 0 ==> 0 <= r < b && r == a % b
    ensures a < 0 ==> -b < r <= 0
  {
    if a >= 0 then a % b else -((-a) % b)
  }

  /** `${hours}h ${minutes}m` */
  function FormatHM(hours: int, minutes: int): string {
    IntToString(hours) + "h " + IntToString(minutes) + "m"
  }

  /** Position of the first `c` in `s`, or `|s|` when there is none. */
  function IndexOf(s: string, c: char): (i: nat)
    ensures i <= |s|
    ensures i < |s| ==> s[i] == c
    ensures forall k :: 0 <= k < i ==> s[k] != c
  {
    if s == [] then 0 else if s[0] == c then 0 else 1 + IndexOf(s[1..], c)
  }

  /** Reads a "{hours}h {minutes}m" text back into its two numbers. */
  function ParseHM(s: string): Option<(int, int)> {
    var i := IndexOf(s, 'h');
    if i + 2 < |s| && s[i + 1] == ' ' && s[|s| - 1] == 'm' then
      var hours := ParseInt(s[..i]);
      var minutes := ParseInt(s[i + 2..|s| - 1]);
      if hours.Some? && minutes.Some? then Some((hours.value, minutes.value)) else None
    else None
  }

  lemma ParseFormatRoundTrip(hours: int, minutes: int)
    ensures ParseHM(FormatHM(hours, minutes)) == Some((hours, minutes))
  {
    var a, b := IntToString(hours), IntToString(minutes);
    var s := FormatHM(hours, minutes);
    assert s == a + ['h', ' '] + b + ['m'];
    assert s[|a|] == 'h';
    assert forall k :: 0 <= k < |a| ==> s[k] == a[k];
    assert IndexOf(s, 'h') == |a|;
    assert s[..|a|] == a;
    assert s[|a| + 2..|s| - 1] == b;
    IntToStringRoundTrip(hours);
    IntToStringRoundTrip(minutes);
  }

  /** The text determines both numbers. */
  lemma FormatInjective(h1: int, m1: int, h2: int, m2: int)
    ensures FormatHM(h1, m1) == FormatHM(h2, m2) <==> h1 == h2 && m1 == m2
  {
    ParseFormatRoundTrip(h1, m1);
    ParseFormatRoundTrip(h2, m2);
  }

  /** `Math.floor(ms / (1000 * 60 * 60))` */
  function FloorHours(ms: int): int {
    ms / MsPerHour
  }

  /** `Math.floor((ms % (1000 * 60 * 60)) / (1000 * 60))`, with JavaScript's truncating `%`. */
  function FloorMinutes(ms: int): int {
    JsRem(ms, MsPerHour) / MsPerMinute
  }

  /**
   * The integer-division formatting of a millisecond count: for a
   * non-negative count, the whole minutes it spans split by 60.
   */
  function FloorFormat(ms: int): (r: string)
    ensures ms >= 0 ==> r == FormatHM((ms / MsPerMinute) / 60, (ms / MsPerMinute) % 60)
  {
    if ms >= 0 then
      FloorComponents(ms);
      DivModUnique(ms / MsPerMinute, 60, FloorHours(ms), FloorMinutes(ms));
      FormatHM(FloorHours(ms), FloorMinutes(ms))
    else FormatHM(FloorHours(ms), FloorMinutes(ms))
  }

  lemma DivModUnique(a: int, b: int, q: int, r: int)
    requires b > 0 && a == b * q + r && 0 <= r < b
    ensures a / b == q && a % b == r
  {
    var q', r' := a / b, a % b;
    assert b * (q - q') == r' - r;
    if q > q' {
      MulAtLeast(b, q - q');
    } else if q < q' {
      MulAtLeast(b, q' - q);
    }
  }

  lemma MulAtLeast(b: int, k: int)
    requires b > 0 && k >= 1
    ensures b * k >= b
  {
    assert b * k == b * (k - 1) + b;
  }

  /**
   * For a non-negative count the minutes lie in 0..59 and hours and minutes
   * together are the whole minutes elapsed: seconds are truncated, not rounded.
   */
  lemma FloorComponents(ms: int)
    requires ms >= 0
    ensures 0 <= FloorMinutes(ms) < 60
    ensures FloorHours(ms) * 60 + FloorMinutes(ms) == ms / MsPerMinute
  {
    var q, r := ms / MsPerHour, ms % MsPerHour;
    var m, x := r / MsPerMinute, r % MsPerMinute;
    assert r == MsPerMinute * m + x;
    assert MsPerHour * q == MsPerMinute * (60 * q);
    assert ms == MsPerMinute * (60 * q + m) + x;
    DivModUnique(ms, MsPerMinute, 60 * q + m, x);
  }

  /** Two non-negative counts print alike exactly when they span the same whole minutes. */
  lemma FloorFormatSameMinutes(a: int, b: int)
    requires a >= 0 && b >= 0
    ensures FloorFormat(a) == FloorFormat(b) <==> a / MsPerMinute == b / MsPerMinute
  {
    FloorComponents(a);
    FloorComponents(b);
    FormatInjective(FloorHours(a), FloorMinutes(a), FloorHours(b), FloorMinutes(b));
  }
}
