/** The quiz clock and the `m:ss` display. The remaining time is always
    derived from the fixed start timestamp, never counted down, so a reload
    or a late timer callback cannot make it drift. */
module Timing {
  import opened Text
  import opened Wrappers

  /** `QUIZ_DURATION_SECONDS`. */
  const QuizDurationSeconds := 360

  /** `QUIZ_DURATION_SECONDS - Math.floor((now - start) / 1000)`, the
      timestamps in milliseconds. For a positive divisor Dafny's `/` rounds
      towards negative infinity, as `Math.floor` of the quotient does. */
  function Remaining(start: int, now: int): (r: int)
    ensures now >= start ==> r <= QuizDurationSeconds
    ensures r <= 0 <==> now - start >= QuizDurationSeconds * 1000
  {
    QuizDurationSeconds - (now - start) / 1000
  }

  /** The remaining time is 360 less the number of whole seconds elapsed. */
  lemma RemainingCountsWholeSeconds(start: int, now: int, seconds: int)
    requires seconds * 1000 <= now - start < (seconds + 1) * 1000
    ensures Remaining(start, now) == QuizDurationSeconds - seconds
  {
  }

  /** Later ticks never show more time left. */
  lemma RemainingMonotone(start: int, earlier: int, later: int)
    requires earlier <= later
    ensures Remaining(start, later) <= Remaining(start, earlier)
  {
    var e, l := (earlier - start) / 1000, (later - start) / 1000;
    assert e * 1000 <= earlier - start <= later - start < (l + 1) * 1000;
  }

  /** A number in a template literal: optional minus sign, then digits. */
  function NumberText(i: int): string {
    if i < 0 then "-" + NatToString(-i) else NatToString(i)
  }

  /** `formatTime`: minutes `Math.floor(s / 60)`, then a colon, then the
      seconds `s % 60` with a leading "0" when they are below 10. JavaScript's
      `%` takes the sign of the dividend, which matters only when `s < 0`. */
  function FormatTime(s: int): (t: string)
    ensures s >= 0 ==> && |t| == |NatToString(s / 60)| + 3
                       && t[..|t| - 3] == NatToString(s / 60) && t[|t| - 3] == ':'
                       && AllDigits(t[|t| - 2..]) && ParseDigits(t[|t| - 2..]) == s % 60
  {
    var m := s / 60;
    var sec := if s >= 0 then s % 60 else -((-s) % 60);
    var t := NumberText(m) + ":" + (if sec < 10 then "0" else "") + NumberText(sec);
    if s >= 0 then
      SecondsField(sec);
      assert t[..|t| - 3] == NumberText(m);
      assert t[|t| - 2..] == (if sec < 10 then "0" else "") + NumberText(sec);
      t
    else t
  }

  /** Reads an `m:ss` display back as a number of seconds. */
  function ParseTime(t: string): Option<nat> {
    if |t| >= 4 && t[|t| - 3] == ':' && AllDigits(t[..|t| - 3]) && AllDigits(t[|t| - 2..])
       && ParseDigits(t[|t| - 2..]) < 60
    then Some(ParseDigits(t[..|t| - 3]) * 60 + ParseDigits(t[|t| - 2..]))
    else None
  }

  /** Two characters for the seconds of a non-negative time: a "0" pad and
      one digit, or two digits. */
  lemma SecondsField(sec: nat)
    requires sec < 60
    ensures var f := (if sec < 10 then "0" else "") + NumberText(sec);
      |f| == 2 && AllDigits(f) && ParseDigits(f) == sec && f[0] <= '5'
  {
    var f := (if sec < 10 then "0" else "") + NumberText(sec);
    ParseNatToString(sec);
    if sec < 10 {
      assert f == ['0', DigitChar(sec)];
      assert f[..1] == ['0'] && ['0'][..0] == [];
    } else {
      assert NumberText(sec) == NatToString(sec / 10) + [DigitChar(sec % 10)];
      assert f[..1] == NatToString(sec / 10);
    }
  }

  /** For `s >= 0` the display is `m:ss`: the minutes as digits, a colon,
      and two digits of seconds below 60, with `m * 60 + ss == s`. */
  lemma FormatTimeShape(s: int)
    requires s >= 0
    ensures var t := FormatTime(s);
      && |t| >= 4 && t[|t| - 3] == ':'
      && AllDigits(t[..|t| - 3]) && AllDigits(t[|t| - 2..])
      && ParseDigits(t[..|t| - 3]) == s / 60
      && ParseDigits(t[|t| - 2..]) == s % 60 < 60
      && ParseDigits(t[..|t| - 3]) * 60 + ParseDigits(t[|t| - 2..]) == s
  {
    ParseNatToString(s / 60);
  }

  /** Reading the display back gives the number of seconds shown. */
  lemma FormatTimeRoundTrip(s: int)
    requires s >= 0
    ensures ParseTime(FormatTime(s)) == Some(s)
  {
    FormatTimeShape(s);
  }

  /** The start screen's full duration reads `6:00`. */
  lemma FullDurationDisplay()
    ensures FormatTime(QuizDurationSeconds) == "6:00"
  {
  }
}
