/** Rendering of the remaining seconds as zero-padded `MM:SS`, and a reader for
    that text that inverts it. */
module Clock {
  import opened Wrappers

  predicate IsDigit(c: char) {
    '0' <= c <= '9'
  }

  predicate IsDigits(d: string) {
    forall i :: 0 <= i < |d| ==> IsDigit(d[i])
  }

  function DigitChar(n: nat): (c: char)
    requires n < 10
    ensures IsDigit(c)
    ensures DigitValue(c) == n
  {
    ('0' as int + n) as char
  }

  function DigitValue(c: char): (n: nat)
    requires IsDigit(c)
    ensures n < 10
  {
    (c as int - '0' as int)
  }

  /** Decimal text of a natural number without leading zeros, as `toString` gives
      it for numbers below 10^21. */
  function DecimalString(n: nat): (d: string)
    ensures IsDigits(d) && |d| >= 1
    ensures d[0] != '0' || n == 0
    ensures n < 10 <==> |d| == 1
    ensures n < 100 ==> |d| <= 2
    decreases n
  {
    if n < 10 then [DigitChar(n)] else DecimalString(n / 10) + [DigitChar(n % 10)]
  }

  /** The number a digit string denotes, most significant digit first. */
  function DecimalValue(d: string): nat
    requires IsDigits(d)
    decreases |d|
  {
    if d == [] then 0 else DecimalValue(d[..|d| - 1]) * 10 + DigitValue(d[|d| - 1])
  }

  /** Reading the decimal text back gives the number. */
  lemma {:induction false} DecimalRoundTrip(n: nat)
    ensures DecimalValue(DecimalString(n)) == n
    decreases n
  {
    if n >= 10 {
      var d := DecimalString(n);
      var q := DecimalString(n / 10);
      assert d == q + [DigitChar(n % 10)];
      assert d[..|d| - 1] == q;
      assert DecimalValue(d) == DecimalValue(q) * 10 + n % 10;
      DecimalRoundTrip(n / 10);
    }
  }

  /** A leading zero does not change the value. */
  lemma {:induction false} LeadingZero(d: string)
    requires IsDigits(d)
    ensures IsDigits(['0'] + d)
    ensures DecimalValue(['0'] + d) == DecimalValue(d)
    decreases |d|
  {
    if d != [] {
      var z := ['0'] + d;
      assert z[..|z| - 1] == ['0'] + d[..|d| - 1];
      LeadingZero(d[..|d| - 1]);
    }
  }

  /** Left-pads with '0' up to `width` characters; longer text is left alone. */
  function PadStart(d: string, width: nat): (r: string)
    ensures |d| >= width ==> r == d
    ensures |d| < width ==> |r| == width
    decreases width - |d|
  {
    if |d| >= width then d else PadStart(['0'] + d, width)
  }

  /** Padding only adds zeros in front: the original text is the suffix. */
  lemma {:induction false} PadStartShape(d: string, width: nat)
    ensures |PadStart(d, width)| >= |d|
    ensures PadStart(d, width)[|PadStart(d, width)| - |d|..] == d
    ensures forall i :: 0 <= i < |PadStart(d, width)| - |d| ==> PadStart(d, width)[i] == '0'
    decreases width - |d|
  {
    if |d| < width {
      var z := ['0'] + d;
      PadStartShape(z, width);
      var r := PadStart(z, width);
      assert r[|r| - |z|..] == z;
      assert r[|r| - |d|..] == z[1..];
      assert z[1..] == d;
    }
  }

  /** Padding keeps digit text digit text, with the same value. */
  lemma {:induction false} PadStartValue(d: string, width: nat)
    requires IsDigits(d)
    ensures IsDigits(PadStart(d, width))
    ensures DecimalValue(PadStart(d, width)) == DecimalValue(d)
    decreases width - |d|
  {
    if |d| < width {
      LeadingZero(d);
      PadStartValue(['0'] + d, width);
    }
  }

  /** The minutes and seconds shown for `seconds`. */
  function ClockParts(seconds: nat): (p: (nat, nat))
    ensures p.1 < 60
    ensures p.0 * 60 + p.1 == seconds
  {
    (seconds / 60, seconds % 60)
  }

  /** One field of the display: the decimal text padded to two digits. */
  function Field(n: nat): (f: string)
    ensures IsDigits(f) && |f| >= 2
    ensures n < 100 ==> |f| == 2
  {
    PadStartValue(DecimalString(n), 2);
    PadStart(DecimalString(n), 2)
  }

  /** A field reads back as the number it shows. */
  lemma FieldValue(n: nat)
    ensures DecimalValue(Field(n)) == n
  {
    PadStartValue(DecimalString(n), 2);
    DecimalRoundTrip(n);
  }

  /** The countdown display. */
  function FormatTime(seconds: nat): string {
    var (mins, secs) := ClockParts(seconds);
    Join(mins, secs)
  }

  /** Minutes and seconds fields joined by a colon. */
  function Join(mins: nat, secs: nat): string {
    Field(mins) + ":" + Field(secs)
  }

  /** Reads `M...M:SS` back into seconds: a colon three characters from the end,
      with the minutes before it and the seconds after it. */
  function ParseTime(text: string): (r: Option<nat>)
    ensures r.Some? ==> |text| >= 4 && text[|text| - 3] == ':'
  {
    if |text| < 4 || text[|text| - 3] != ':' then None
    else ParseFields(text[..|text| - 3], text[|text| - 2..])
  }

  /** Minutes and seconds fields: digits on both sides and fewer than sixty seconds. */
  function ParseFields(mins: string, secs: string): (r: Option<nat>)
    ensures r.Some? ==> IsDigits(mins) && IsDigits(secs) && DecimalValue(secs) < 60
  {
    if !IsDigits(mins) || !IsDigits(secs) then None
    else
      var s := DecimalValue(secs);
      if s >= 60 then None else Some(DecimalValue(mins) * 60 + s)
  }

  /** Text `t` of the form `m:s` with a two-character `s` splits back around the colon. */
  lemma ColonSplit(t: string, m: string, s: string)
    requires t == m + ":" + s
    requires |s| == 2 && |m| >= 2
    ensures |t| >= 5
    ensures t[|t| - 3] == ':'
    ensures t[..|t| - 3] == m
    ensures t[|t| - 2..] == s
    ensures |m| == 2 ==> |t| == 5
  {
    assert t[..|m|] == m;
    assert t[|m| + 1..] == s;
  }

  /** The display is its two fields joined by a colon. */
  lemma FormatTimeFields(seconds: nat)
    ensures FormatTime(seconds) == Field(seconds / 60) + ":" + Field(seconds % 60)
    ensures |Field(seconds % 60)| == 2
    ensures seconds < 6000 ==> |Field(seconds / 60)| == 2
  {
  }

  /** The shape of the display: two-digit seconds after a colon, minutes padded
      to at least two digits before it, five characters below 100 minutes. */
  lemma FormatTimeShape(seconds: nat)
    ensures |FormatTime(seconds)| >= 5
    ensures FormatTime(seconds)[|FormatTime(seconds)| - 3] == ':'
    ensures IsDigits(FormatTime(seconds)[..|FormatTime(seconds)| - 3])
    ensures IsDigits(FormatTime(seconds)[|FormatTime(seconds)| - 2..])
    ensures seconds < 6000 ==> |FormatTime(seconds)| == 5
  {
    FormatTimeFields(seconds);
    ColonSplit(FormatTime(seconds), Field(seconds / 60), Field(seconds % 60));
  }

  /** Reading `m:s` with a two-character `s` reads the two fields. */
  lemma ParseColonJoined(m: string, s: string)
    requires |s| == 2 && |m| >= 2
    ensures ParseTime(m + ":" + s) == ParseFields(m, s)
  {
    ColonSplit(m + ":" + s, m, s);
  }

  /** Reading the display back gives the seconds it was made from. */
  lemma FormatTimeRoundTrip(seconds: nat)
    ensures ParseTime(FormatTime(seconds)) == Some(seconds)
  {
    var m, s := Field(seconds / 60), Field(seconds % 60);
    FormatTimeFields(seconds);
    FieldValue(seconds / 60);
    FieldValue(seconds % 60);
    ParseColonJoined(m, s);
  }

  /** Two different remaining times never look alike. */
  lemma FormatTimeInjective(a: nat, b: nat)
    ensures FormatTime(a) == FormatTime(b) ==> a == b
  {
    FormatTimeRoundTrip(a);
    FormatTimeRoundTrip(b);
  }

  /** Sample displays. */
  lemma FormatTimeExample65()
    ensures FormatTime(65) == "01:05"
  {
    assert ClockParts(65) == (1, 5);
    assert Field(1) == "01";
    assert Field(5) == "05";
  }

  lemma FormatTimeExampleZero()
    ensures FormatTime(0) == "00:00"
  {
    assert ClockParts(0) == (0, 0);
    assert Field(0) == "00";
  }

  /** A fresh study session shows its full 25 minutes. */
  lemma FormatTimeExampleStudy()
    ensures FormatTime(1500) == "25:00"
  {
    assert ClockParts(1500) == (25, 0);
    assert DecimalString(25) == DecimalString(2) + [DigitChar(5)] == "25";
    assert Field(25) == "25";
    assert Field(0) == "00";
  }
}
