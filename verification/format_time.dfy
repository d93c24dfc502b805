/** The `MM:SS` readout shared by the three timer components: minutes are
    `Math.floor(seconds / 60)` and seconds are `seconds % 60`, each written in
    decimal and left-padded with '0' to at least two characters. */
module FormatTime {
  import opened Wrappers
  import opened Decimal

  /** `String.prototype.padStart(width, '0')`: prepend '0' until the text is `width` long. */
  function PadStart(s: string, width: nat): (r: string)
    requires AllDigits(s)
    ensures AllDigits(r) && Value(r) == Value(s)
    ensures |r| == if |s| >= width then |s| else width
    decreases width - |s|
  {
    if |s| >= width then s
    else
      ValueOfLeadingZero(s);
      PadStart("0" + s, width)
  }

  /** The readout for a remaining time of `seconds`. The timers never show a
      negative remaining time, so the argument is a `nat`. */
  function FormatTime(seconds: nat): string
  {
    PadStart(Digits(seconds / 60), 2) + ":" + PadStart(Digits(seconds % 60), 2)
  }

  /** The minutes field: everything before the final ":SS". */
  function MinutesField(r: string): string
    requires |r| >= 3
  {
    r[..|r| - 3]
  }

  /** The seconds field: the last two characters. */
  function SecondsField(r: string): string
    requires |r| >= 3
  {
    r[|r| - 2..]
  }

  /** Reads a readout back: a minutes field of at least two digits, ':', and a
      seconds field of exactly two digits below 60. */
  function ParseClock(r: string): Option<nat>
  {
    if |r| >= 5 && r[|r| - 3] == ':' && AllDigits(MinutesField(r)) && AllDigits(SecondsField(r))
       && Value(SecondsField(r)) < 60
    then Some(Value(MinutesField(r)) * 60 + Value(SecondsField(r)))
    else None
  }

  /** The shape of every readout: a minutes field of at least two digits holding
      `seconds / 60`, a colon, and a two-digit seconds field from 00 to 59 holding
      `seconds % 60`; together the two fields give back `seconds`. */
  lemma FormatTimeFields(seconds: nat)
    ensures var r := FormatTime(seconds);
      && |r| >= 5 && r[|r| - 3] == ':'
      && |MinutesField(r)| >= 2 && AllDigits(MinutesField(r))
      && Value(MinutesField(r)) == seconds / 60
      && |SecondsField(r)| == 2 && AllDigits(SecondsField(r))
      && Value(SecondsField(r)) == seconds % 60 < 60
      && Value(MinutesField(r)) * 60 + Value(SecondsField(r)) == seconds
  {
    var m := PadStart(Digits(seconds / 60), 2);
    var s := PadStart(Digits(seconds % 60), 2);
    var r := FormatTime(seconds);
    assert r == m + ":" + s;
    assert MinutesField(r) == m;
    assert SecondsField(r) == s;
    ValueOfDigits(seconds / 60);
    ValueOfDigits(seconds % 60);
  }

  /** The readout is a faithful rendering: reading it back gives the remaining time. */
  lemma ParseFormatTime(seconds: nat)
    ensures ParseClock(FormatTime(seconds)) == Some(seconds)
  {
    FormatTimeFields(seconds);
  }

  /** Two different remaining times never share a readout. */
  lemma FormatTimeInjective(a: nat, b: nat)
    requires FormatTime(a) == FormatTime(b)
    ensures a == b
  {
    ParseFormatTime(a);
    ParseFormatTime(b);
  }
}
