/**
  The type converters: how a terminal value is written into the filter text.
  Strings are quoted without escaping, booleans are lower-case, dates use the
  OData datetime literal with millisecond precision, and every other simple
  value (here: integers) uses ToString. Integer and date text are written as
  the invariant culture writes them (ASCII '-', Gregorian calendar, ':' between
  the time fields); the source formats in the host's current culture. The parsing
  functions below read a literal back; they are the partner that shows the
  encoding loses nothing of the modelled value (dates to the millisecond,
  integers by value).
*/
module Literals {
  import opened Wrappers
  import opened Expressions

  predicate IsDigit(c: char) {
    '0' <= c <= '9'
  }

  predicate AllDigits(s: string) {
    forall i | 0 <= i < |s| :: IsDigit(s[i])
  }

  function DigitChar(d: nat): (c: char)
    requires d < 10
    ensures IsDigit(c)
  {
    ('0' as int + d) as char
  }

  function DigitValue(c: char): nat
    requires IsDigit(c)
  {
    c as int - '0' as int
  }

  function Pow10(w: nat): nat {
    if w == 0 then 1 else 10 * Pow10(w - 1)
  }

  /** `n` written in exactly `w` digits, zero-padded on the left (the custom
      format specifiers "yyyy", "MM", "dd", "HH", "mm", "ss", "fff"). */
  function Padded(n: nat, w: nat): (s: string)
    ensures |s| == w && AllDigits(s)
  {
    if w == 0 then [] else Padded(n / 10, w - 1) + [DigitChar(n % 10)]
  }

  /** The shortest decimal representation of `n`. */
  function Digits(n: nat): (s: string)
    ensures |s| >= 1 && AllDigits(s)
  {
    if n < 10 then [DigitChar(n)] else Digits(n / 10) + [DigitChar(n % 10)]
  }

  /** The number a string of decimal digits denotes. */
  function DigitsValue(s: string): nat
    requires AllDigits(s)
  {
    if s == [] then 0 else DigitsValue(s[..|s| - 1]) * 10 + DigitValue(s[|s| - 1])
  }

  /** Int32.ToString() and friends, as the invariant culture writes them. */
  function IntText(i: int): string {
    if i < 0 then "-" + Digits(-i) else Digits(i)
  }

  /** DateTime.ToString("yyyy-MM-ddTHH:mm:ss.fffZ") as the invariant culture
      writes it: Gregorian year, month and day, ':' as the time separator. */
  function DateText(d: DateTime): string {
    DayText(d) + "T" + TimeText(d) + "." + Padded(d.millisecond, 3) + "Z"
  }

  /** The yyyy-MM-dd part. */
  function DayText(d: DateTime): string {
    Padded(d.year, 4) + "-" + Padded(d.month, 2) + "-" + Padded(d.day, 2)
  }

  /** The HH:mm:ss part. */
  function TimeText(d: DateTime): string {
    Padded(d.hour, 2) + ":" + Padded(d.minute, 2) + ":" + Padded(d.second, 2)
  }

  /** The converter applied to a terminal value. Its first character tells
      which converter wrote it: a quote for a string, a sign or digit for an
      integer. */
  function Encode(x: Scalar): (r: string)
    ensures |r| >= 1
    ensures x.Str? <==> r[0] == '\''
    ensures x.Int? <==> (r[0] == '-' || IsDigit(r[0]))
  {
    match x
    case Str(s) => "'" + s + "'"
    case Date(d) => "datetime'" + DateText(d) + "'"
    case Bool(b) => if b then "true" else "false"
    case Int(i) => IntText(i)
  }

  function ParseInt(t: string): Option<int> {
    if |t| >= 2 && t[0] == '-' && AllDigits(t[1..]) then Some(0 - DigitsValue(t[1..]) as int)
    else if |t| >= 1 && AllDigits(t) then Some(DigitsValue(t))
    else None
  }

  function ParseDate(t: string): Option<DateTime> {
    if && |t| == 24
       && t[4] == '-' && t[7] == '-' && t[10] == 'T' && t[13] == ':'
       && t[16] == ':' && t[19] == '.' && t[23] == 'Z'
       && AllDigits(t[0..4]) && AllDigits(t[5..7]) && AllDigits(t[8..10])
       && AllDigits(t[11..13]) && AllDigits(t[14..16]) && AllDigits(t[17..19])
       && AllDigits(t[20..23])
    then
      var d := DateParts(
        DigitsValue(t[0..4]), DigitsValue(t[5..7]), DigitsValue(t[8..10]),
        DigitsValue(t[11..13]), DigitsValue(t[14..16]), DigitsValue(t[17..19]),
        DigitsValue(t[20..23]));
      if ValidDate(d) then Some(d) else None
    else None
  }

  /** Reads a literal back into the value it encodes. */
  function Decode(t: string): Option<Scalar> {
    if |t| >= 2 && t[0] == '\'' && t[|t| - 1] == '\'' then Some(Str(t[1..|t| - 1]))
    else if t == "true" then Some(Bool(true))
    else if t == "false" then Some(Bool(false))
    else if |t| >= 10 && t[..9] == "datetime'" && t[|t| - 1] == '\'' then
      match ParseDate(t[9..|t| - 1])
      case Some(d) => Some(Date(d))
      case None => None
    else
      match ParseInt(t)
      case Some(i) => Some(Int(i))
      case None => None
  }

  lemma {:induction false} PaddedValue(n: nat, w: nat)
    requires n < Pow10(w)
    ensures DigitsValue(Padded(n, w)) == n
  {
    if w > 0 {
      var s := Padded(n, w);
      assert s[..|s| - 1] == Padded(n / 10, w - 1);
      assert n / 10 < Pow10(w - 1);
      PaddedValue(n / 10, w - 1);
    }
  }

  lemma {:induction false} DigitsValueOf(n: nat)
    ensures DigitsValue(Digits(n)) == n
    ensures Digits(n)[0] != '0' || n == 0
  {
    if n >= 10 {
      var s := Digits(n);
      assert s[..|s| - 1] == Digits(n / 10);
      DigitsValueOf(n / 10);
    }
  }

  /** Integer text reads back to the same integer. */
  lemma IntTextRoundTrip(i: int)
    ensures ParseInt(IntText(i)) == Some(i)
  {
    if i < 0 {
      DigitsValueOf(-i);
      assert IntText(i)[1..] == Digits(-i);
    } else {
      DigitsValueOf(i);
    }
  }

  /** The date text is 24 characters with its separators in fixed places, and
      reads back to the same date and time. */
  lemma DateTextRoundTrip(d: DateTime)
    ensures |DateText(d)| == 24
    ensures ParseDate(DateText(d)) == Some(d)
  {
    var t := DateText(d);
    assert t[0..4] == Padded(d.year, 4);
    assert t[5..7] == Padded(d.month, 2);
    assert t[8..10] == Padded(d.day, 2);
    assert t[11..13] == Padded(d.hour, 2);
    assert t[14..16] == Padded(d.minute, 2);
    assert t[17..19] == Padded(d.second, 2);
    assert t[20..23] == Padded(d.millisecond, 3);
    PaddedValue(d.year, 4);
    PaddedValue(d.month, 2);
    PaddedValue(d.day, 2);
    PaddedValue(d.hour, 2);
    PaddedValue(d.minute, 2);
    PaddedValue(d.second, 2);
    PaddedValue(d.millisecond, 3);
  }

  /** Every encoded literal reads back to the value it came from. */
  lemma EncodeRoundTrip(x: Scalar)
    ensures Decode(Encode(x)) == Some(x)
  {
    match x
    case Str(s) =>
      assert Encode(x)[1..|Encode(x)| - 1] == s;
    case Bool(b) =>
    case Date(d) =>
      var t := Encode(x);
      DateTextRoundTrip(d);
      assert t[..9] == "datetime'";
      assert t[9..|t| - 1] == DateText(d);
    case Int(i) =>
      IntTextRoundTrip(i);
      var t := IntText(i);
      assert t[0] == '-' || IsDigit(t[0]);
  }

  /** Different modelled values never share a literal. */
  lemma EncodeInjective(x: Scalar, y: Scalar)
    ensures Encode(x) == Encode(y) ==> x == y
  {
    EncodeRoundTrip(x);
    EncodeRoundTrip(y);
  }

  /** The literal forms the converters produce, on sample values. */
  lemma EncodeSamples()
    ensures Encode(Str("Tom")) == "'Tom'"
    ensures Encode(Bool(false)) == "false" && Encode(Bool(true)) == "true"
    ensures Encode(Int(1000)) == "1000" && Encode(Int(-7)) == "-7"
  {
    assert Digits(1000) == Digits(100) + "0";
    assert Digits(7) == "7";
  }

  /** A sample date in the datetime literal's layout; Encode wraps it as
      datetime'2024-01-02T03:04:05.678Z'. */
  lemma DateTextSample(d: DateTime)
    requires d == DateParts(2024, 1, 2, 3, 4, 5, 678)
    ensures DateText(d) == "2024-01-02T03:04:05.678Z"
  {
    DayPartSample(d);
    TimePartSample(d);
    MillisecondSample();
    JoinSample();
  }

  // Proved inside the lemma that uses them, these literal concatenations
  // would cost the solver far more, so each is a lemma of its own.

  lemma JoinSample()
    ensures "2024-01-02" + "T" + "03:04:05" + "." + "678" + "Z" == "2024-01-02T03:04:05.678Z"
  {
    assert "2024-01-02" + "T" == "2024-01-02T";
    assert "2024-01-02T" + "03:04:05" == "2024-01-02T03:04:05";
    assert "." + "678" + "Z" == ".678Z";
  }

  lemma DayPartSample(d: DateTime)
    requires d.year == 2024 && d.month == 1 && d.day == 2
    ensures DayText(d) == "2024-01-02"
  {
    YearSample();
    TwoDigitSamples();
  }

  lemma TimePartSample(d: DateTime)
    requires d.hour == 3 && d.minute == 4 && d.second == 5
    ensures TimeText(d) == "03:04:05"
  {
    TwoDigitSamples();
  }

  lemma YearSample()
    ensures Padded(2024, 4) == "2024"
  {
    assert Padded(2, 1) == "2";
    assert Padded(20, 2) == "20";
    assert Padded(202, 3) == "202";
  }

  lemma MillisecondSample()
    ensures Padded(678, 3) == "678"
  {
    assert Padded(6, 1) == "6";
    assert Padded(67, 2) == "67";
  }

  lemma TwoDigitSamples()
    ensures Padded(1, 2) == "01" && Padded(2, 2) == "02" && Padded(3, 2) == "03"
    ensures Padded(4, 2) == "04" && Padded(5, 2) == "05"
  {
  }
}
