/**
 * The recording timer's text: elapsed whole seconds shown as hours, minutes
 * and seconds, each zero-padded to at least two digits and separated by ':'.
 */
module Timer {
  import opened Wrappers

  datatype Clock = Clock(hours: nat, minutes: nat, seconds: nat)

  /** Elapsed seconds split into hours, minutes below 60 and seconds below 60. */
  function SplitElapsed(elapsed: nat): (c: Clock)
    ensures c.hours * 3600 + c.minutes * 60 + c.seconds == elapsed
    ensures c.minutes < 60 && c.seconds < 60
  {
    Clock(elapsed / 3600, (elapsed % 3600) / 60, elapsed % 60)
  }

  /** The split is the only one with minutes and seconds below 60. */
  lemma SplitUnique(elapsed: nat, c: Clock)
    requires c.minutes < 60 && c.seconds < 60
    requires c.hours * 3600 + c.minutes * 60 + c.seconds == elapsed
    ensures c == SplitElapsed(elapsed)
  {
    var rest := c.minutes * 60 + c.seconds;
    DivModUnique(elapsed, 3600, c.hours, rest);
    DivModUnique(rest, 60, c.minutes, c.seconds);
    DivModUnique(elapsed, 60, c.hours * 60 + c.minutes, c.seconds);
  }

  lemma DivModUnique(n: nat, d: nat, q: nat, r: nat)
    requires 0 < d && r < d && n == q * d + r
    ensures n / d == q && n % d == r
  {
    var q', r' := n / d, n % d;
    assert n == q' * d + r';
    if q < q' {
      assert (q + 1) * d <= q' * d by { MulLe(q + 1, q', d); }
    } else if q' < q {
      assert (q' + 1) * d <= q * d by { MulLe(q' + 1, q, d); }
    }
  }

  lemma MulLe(a: nat, b: nat, d: nat)
    requires a <= b
    ensures a * d <= b * d
  {
  }

  predicate IsDigit(ch: char)
  {
    '0' <= ch <= '9'
  }

  predicate AllDigits(s: string)
  {
    forall i :: 0 <= i < |s| ==> IsDigit(s[i])
  }

  function DigitChar(d: nat): (ch: char)
    requires d < 10
    ensures IsDigit(ch)
  {
    ('0' as int + d) as char
  }

  /** The decimal numeral of `n`, without leading zeros. */
  function Decimal(n: nat): (s: string)
    ensures |s| >= 1 && AllDigits(s)
    ensures n < 10 ==> |s| == 1
    ensures 10 <= n < 100 ==> |s| == 2
    ensures n >= 10 ==> |s| >= 2
    ensures n >= 1 ==> s[0] != '0'
  {
    if n < 10 then [DigitChar(n)] else Decimal(n / 10) + [DigitChar(n % 10)]
  }

  /** The number a string of decimal digits denotes. */
  function DecimalValue(s: string): nat
    requires AllDigits(s)
  {
    if s == [] then 0 else DecimalValue(s[..|s| - 1]) * 10 + (s[|s| - 1] as int - '0' as int)
  }

  /** Reading a numeral back gives the number. */
  lemma {:induction false} DecimalRoundTrip(n: nat)
    ensures DecimalValue(Decimal(n)) == n
  {
    if n >= 10 {
      DecimalRoundTrip(n / 10);
      var s := Decimal(n);
      assert s[..|s| - 1] == Decimal(n / 10);
    }
  }

  /** A leading zero does not change the value of a numeral. */
  lemma {:induction false} LeadingZero(s: string)
    requires AllDigits(s)
    ensures AllDigits("0" + s) && DecimalValue("0" + s) == DecimalValue(s)
  {
    if s != [] {
      LeadingZero(s[..|s| - 1]);
      assert ("0" + s)[..|s|] == "0" + s[..|s| - 1];
    }
  }

  /** Python's `f"{n:02d}"`: the numeral of `n`, with a leading zero when it has one digit. */
  function Pad2(n: nat): (s: string)
    ensures AllDigits(s)
    ensures |s| >= 2
    ensures n < 100 ==> |s| == 2
    ensures n < 10 <==> s[0] == '0'
  {
    if n < 10 then "0" + Decimal(n) else Decimal(n)
  }

  /** A padded field has at least two digits, exactly two below 100, and reads back as `n`. */
  lemma Pad2Field(n: nat)
    ensures |Pad2(n)| >= 2
    ensures n < 100 ==> |Pad2(n)| == 2
    ensures DecimalValue(Pad2(n)) == n
  {
    DecimalRoundTrip(n);
    if n < 10 {
      LeadingZero(Decimal(n));
    } else {
      var s := Decimal(n);
      assert s == Decimal(n / 10) + [DigitChar(n % 10)];
    }
  }

  /** The timer's text for `elapsed` whole seconds, as `HH:MM:SS`. */
  function TimerText(elapsed: nat): (t: string)
    ensures |t| >= 8
    ensures t[|t| - 6] == ':' && t[|t| - 3] == ':'
    ensures AllDigits(t[|t| - 5..|t| - 3]) && AllDigits(t[|t| - 2..])
  {
    var c := SplitElapsed(elapsed);
    Pad2(c.hours) + ":" + Pad2(c.minutes) + ":" + Pad2(c.seconds)
  }

  /**
   * Reads a timer text back into seconds: any number of hour digits, then
   * ':', two minute digits, ':', two second digits, where minutes and
   * seconds are below 60.
   */
  function ParseTimer(t: string): (r: Option<nat>)
  {
    if |t| < 8 || t[|t| - 6] != ':' || t[|t| - 3] != ':' then None
    else
      var h, m, s := t[..|t| - 6], t[|t| - 5..|t| - 3], t[|t| - 2..];
      if AllDigits(h) && AllDigits(m) && AllDigits(s) && DecimalValue(m) < 60 && DecimalValue(s) < 60
      then Some(DecimalValue(h) * 3600 + DecimalValue(m) * 60 + DecimalValue(s))
      else None
  }

  /**
   * The timer text denotes the elapsed time: reading it back gives `elapsed`,
   * and it is eight characters long for anything under a hundred hours.
   */
  lemma TimerRoundTrip(elapsed: nat)
    ensures ParseTimer(TimerText(elapsed)) == Some(elapsed)
    ensures elapsed < 100 * 3600 ==> |TimerText(elapsed)| == 8
  {
    var c := SplitElapsed(elapsed);
    Pad2Field(c.hours);
    Pad2Field(c.minutes);
    Pad2Field(c.seconds);
    var h, m, s := Pad2(c.hours), Pad2(c.minutes), Pad2(c.seconds);
    var t := TimerText(elapsed);
    assert t == h + ":" + m + ":" + s;
    assert t[..|t| - 6] == h;
    assert t[|t| - 5..|t| - 3] == m;
    assert t[|t| - 2..] == s;
  }

  /** The three fields of the timer text are the hours, minutes and seconds of the split. */
  lemma TimerFields(elapsed: nat)
    ensures var t := TimerText(elapsed);
      && AllDigits(t[..|t| - 6]) && AllDigits(t[|t| - 5..|t| - 3]) && AllDigits(t[|t| - 2..])
      && DecimalValue(t[..|t| - 6]) == SplitElapsed(elapsed).hours
      && DecimalValue(t[|t| - 5..|t| - 3]) == SplitElapsed(elapsed).minutes
      && DecimalValue(t[|t| - 2..]) == SplitElapsed(elapsed).seconds
  {
    var c := SplitElapsed(elapsed);
    Pad2Field(c.hours);
    Pad2Field(c.minutes);
    Pad2Field(c.seconds);
    var t := TimerText(elapsed);
    assert t == Pad2(c.hours) + ":" + Pad2(c.minutes) + ":" + Pad2(c.seconds);
    assert t[..|t| - 6] == Pad2(c.hours);
    assert t[|t| - 5..|t| - 3] == Pad2(c.minutes);
    assert t[|t| - 2..] == Pad2(c.seconds);
  }
}
