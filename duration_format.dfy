/**
  `format_duration` from the example binary: a signed number of seconds
  printed as `minutes:seconds`. Both components come from Rust's truncating
  `/` and `%`, so whole hours are dropped and a negative input gives two
  negative components.
*/
module DurationFormat {
  import opened TruncatedArith
  import opened Decimal
  import opened Wrappers

  const SECONDS_PER_MINUTE: int := 60
  const MINUTES_PER_HOUR: int := 60

  /** `seconds % 60` under Rust's truncating remainder. */
  function SecondsComponent(seconds: int): (r: int)
    ensures -60 < r < 60
    ensures seconds >= 0 ==> 0 <= r && r == seconds % 60
    ensures seconds < 0 ==> r <= 0
    ensures (seconds - r) % 60 == 0
  {
    TruncRem(seconds, SECONDS_PER_MINUTE)
  }

  /** `(seconds / 60) % 60`, both operators truncating. */
  function MinutesComponent(seconds: int): (r: int)
    ensures -60 < r < 60
    ensures seconds >= 0 ==> 0 <= r && r == (seconds / 60) % 60
    ensures seconds < 0 ==> r <= 0
  {
    var m := TruncRem(TruncDiv(seconds, SECONDS_PER_MINUTE), MINUTES_PER_HOUR);
    if seconds >= 0 then
      TruncAgreesOnNonNegative(seconds, SECONDS_PER_MINUTE);
      TruncAgreesOnNonNegative(seconds / 60, MINUTES_PER_HOUR);
      m
    else
      m
  }

  /** What `format_duration` prints: the minutes, one colon, the seconds, unpadded. */
  function FormatDuration(seconds: int): (s: string)
    ensures ParseDuration(s) == Some((MinutesComponent(seconds), SecondsComponent(seconds)))
    ensures ColonIndex(s) < |s|
    ensures s[..ColonIndex(s)] == IntToString(MinutesComponent(seconds))
    ensures s[ColonIndex(s) + 1..] == IntToString(SecondsComponent(seconds))
  {
    var minutes := IntToString(MinutesComponent(seconds));
    var secs := IntToString(SecondsComponent(seconds));
    var s := minutes + ":" + secs;
    IntToStringHasNoColon(MinutesComponent(seconds));
    IntToStringRoundTrip(MinutesComponent(seconds));
    IntToStringRoundTrip(SecondsComponent(seconds));
    ColonAfter(minutes, secs);
    s
  }

  /** The position of the first colon in `s`, or `|s|` when there is none. */
  function ColonIndex(s: string): (i: nat)
    ensures i <= |s|
    ensures i < |s| ==> s[i] == ':'
    ensures forall j :: 0 <= j < i ==> s[j] != ':'
  {
    if s == [] then 0
    else if s[0] == ':' then 0
    else 1 + ColonIndex(s[1..])
  }

  /** Reads `minutes:seconds` text back into its two signed components. */
  function ParseDuration(s: string): Option<(int, int)> {
    var i := ColonIndex(s);
    if i == |s| then None
    else
      match ParseInt(s[..i])
      case None => None
      case Some(m) =>
        match ParseInt(s[i + 1..])
        case None => None
        case Some(sec) => Some((m, sec))
  }

  lemma ColonAfter(prefix: string, suffix: string)
    requires forall j :: 0 <= j < |prefix| ==> prefix[j] != ':'
    ensures ColonIndex(prefix + ":" + suffix) == |prefix|
    ensures (prefix + ":" + suffix)[..|prefix|] == prefix
    ensures (prefix + ":" + suffix)[|prefix| + 1..] == suffix
  {
    var s := prefix + ":" + suffix;
    assert s[|prefix|] == ':';
  }

  /** For a non-negative input both components are in 0..59 and together they give the time past the hour. */
  lemma {:induction false} NonNegativeComponents(seconds: int)
    requires seconds >= 0
    ensures 0 <= MinutesComponent(seconds) < 60 && 0 <= SecondsComponent(seconds) < 60
    ensures MinutesComponent(seconds) * 60 + SecondsComponent(seconds) == seconds % 3600
  {
    var m := MinutesComponent(seconds);
    var r := SecondsComponent(seconds);
    var q := (seconds / 60) / 60;
    assert seconds == (seconds / 60) * 60 + r;
    assert seconds / 60 == q * 60 + m;
    assert seconds == q * 3600 + (m * 60 + r);
    assert 0 <= m * 60 + r < 3600;
    ModUnique(seconds, 3600, q, m * 60 + r);
  }

  lemma ModUnique(a: int, b: int, q: int, r: int)
    requires b > 0 && a == q * b + r && 0 <= r < b
    ensures a % b == r
  {
    var q' := a / b;
    var r' := a % b;
    assert a == q' * b + r';
    if q' < q {
      assert (q - q') * b == r' - r;
      MultipleAtLeast(q - q', b);
    } else if q' > q {
      assert (q' - q) * b == r - r';
      MultipleAtLeast(q' - q, b);
    }
  }

  lemma MultipleAtLeast(d: int, b: int)
    requires d >= 1 && b > 0
    ensures d * b >= b
  {
    assert d * b == (d - 1) * b + b;
  }

  /** Whole hours are discarded: adding an hour to a non-negative input prints the same text. */
  lemma HoursDiscarded(seconds: int)
    requires seconds >= 0
    ensures FormatDuration(seconds + 3600) == FormatDuration(seconds)
  {
    assert (seconds + 3600) / 60 == seconds / 60 + 60;
    assert (seconds + 3600) % 60 == seconds % 60;
    assert (seconds / 60 + 60) % 60 == (seconds / 60) % 60;
  }

  /** A negative input is printed with both components negated, each with its own minus sign when nonzero. */
  lemma NegativeMirrorsPositive(seconds: int)
    ensures MinutesComponent(-seconds) == -MinutesComponent(seconds)
    ensures SecondsComponent(-seconds) == -SecondsComponent(seconds)
  {
    TruncNegation(seconds, SECONDS_PER_MINUTE);
    TruncNegation(TruncDiv(seconds, SECONDS_PER_MINUTE), MINUTES_PER_HOUR);
  }

  /** A zero minute prints as `0`, never `00` or `-0`: 5 prints as `0:5` and -5 as `0:-5`. */
  lemma ZeroMinuteExamples()
    ensures FormatDuration(5) == "0:5"
    ensures FormatDuration(-5) == "0:-5"
  {
    assert MinutesComponent(5) == 0 && SecondsComponent(5) == 5;
    assert MinutesComponent(-5) == 0 && SecondsComponent(-5) == -5;
    assert NatToString(0) == "0" && NatToString(5) == "5";
  }

  /** 65 seconds prints as `1:5` (no zero padding), and -65 as `-1:-5`. */
  lemma Examples()
    ensures FormatDuration(65) == "1:5"
    ensures FormatDuration(-65) == "-1:-5"
    ensures FormatDuration(3725) == "2:5"
  {
    assert MinutesComponent(65) == 1 && SecondsComponent(65) == 5;
    assert MinutesComponent(-65) == -1 && SecondsComponent(-65) == -5;
    assert MinutesComponent(3725) == 2 && SecondsComponent(3725) == 5;
    assert NatToString(1) == "1" && NatToString(2) == "2" && NatToString(5) == "5";
  }
}
