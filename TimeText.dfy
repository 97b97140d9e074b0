/**
  The time text shown in the trimmer's start and end boxes, `M:SS.mmm`.
  Time is a natural number of milliseconds; `Format` renders it the way
  `formatTime` renders `t / 1000` seconds and `Parse` reads it back the way
  `parseTime` does, with a strict digit reader in place of `parseInt`.
*/
module TimeText {
  import opened Wrappers

  // ---------------------------------------------------------------------------
  // Digits

  predicate IsDigit(c: char) {
    '0' <= c <= '9'
  }

  /** Every character is a decimal digit (read from the end, as `DigitsValue` reads). */
  predicate AllDigits(s: string)
    decreases |s|
  {
    |s| == 0 || (AllDigits(s[..|s| - 1]) && IsDigit(s[|s| - 1]))
  }

  function DigitChar(d: nat): (c: char)
    requires d < 10
    ensures IsDigit(c)
  {
    (48 + d) as char
  }

  function DigitValue(c: char): nat
    requires IsDigit(c)
  {
    c as int - 48
  }

  function Pow10(k: nat): nat {
    if k == 0 then 1 else 10 * Pow10(k - 1)
  }

  /** The number a run of decimal digits denotes (0 for the empty run). */
  function DigitsValue(s: string): nat
    requires AllDigits(s)
    decreases |s|
  {
    if |s| == 0 then 0 else DigitsValue(s[..|s| - 1]) * 10 + DigitValue(s[|s| - 1])
  }

  /** Decimal rendering without leading zeros, as `Number.prototype.toString` gives for a natural number. */
  function NatToString(n: nat): (s: string)
    ensures 1 <= |s| && AllDigits(s)
    ensures n == 0 || s[0] != '0'
    ensures n < 100 ==> |s| <= 2
    ensures n < 1000 ==> |s| <= 3
    decreases n
  {
    if n < 10 then [DigitChar(n)] else NatToString(n / 10) + [DigitChar(n % 10)]
  }

  /** Strict `parseInt`: a value exactly for a non-empty run of digits. */
  function ParseDigits(s: string): Option<nat> {
    if |s| > 0 && AllDigits(s) then Some(DigitsValue(s)) else None
  }

  // ---------------------------------------------------------------------------
  // String helpers with the JavaScript semantics the codec relies on

  function Repeat(c: char, k: nat): (s: string)
    ensures |s| == k && forall i :: 0 <= i < k ==> s[i] == c
  {
    seq(k, _ => c)
  }

  /** `s.padStart(width, c)`. */
  function PadStart(s: string, width: nat, c: char): string {
    if |s| >= width then s else Repeat(c, width - |s|) + s
  }

  /** `s.padEnd(width, c)`. */
  function PadEnd(s: string, width: nat, c: char): string {
    if |s| >= width then s else s + Repeat(c, width - |s|)
  }

  /** `s.split(sep)` for a one-character separator: every piece, in order, empty pieces included. */
  function Split(s: string, sep: char): (parts: seq<string>)
    ensures |parts| >= 1
  {
    if |s| == 0 then [""]
    else
      var rest := Split(s[1..], sep);
      if s[0] == sep then [""] + rest else [[s[0]] + rest[0]] + rest[1..]
  }

  /** The inverse of `Split`: `parts.join(sep)`. */
  function Join(parts: seq<string>, sep: char): string
    requires |parts| >= 1
  {
    if |parts| == 1 then parts[0] else parts[0] + [sep] + Join(parts[1..], sep)
  }

  // ---------------------------------------------------------------------------
  // The codec

  /** The template of the time text: minutes `:` seconds `.` fraction. */
  function Clock(mins: string, secs: string, frac: string): string {
    mins + ":" + secs + "." + frac
  }

  /** `formatTime(t / 1000)`: minutes, seconds padded to two digits, milliseconds padded to three. */
  function Format(t: nat): string {
    Clock(NatToString(t / 60000), PadStart(NatToString(t / 1000 % 60), 2, '0'), PadStart(NatToString(t % 1000), 3, '0'))
  }

  /**
    `parseTime`, in milliseconds. The text is split at `:` and the second
    piece at `.`; a missing `:` makes `parseTime` throw, here `None`. A
    missing fraction reads as "0", and the fraction is right-padded with
    zeros to three digits, so it counts milliseconds.
  */
  function Parse(text: string): Option<nat> {
    var parts := Split(text, ':');
    if |parts| < 2 then None else ParseClock(parts[0], parts[1])
  }

  /** The part of `parseTime` after the split at `:`, given the minutes text and the seconds text. */
  function ParseClock(minsText: string, secsText: string): Option<nat> {
    var pieces := Split(secsText, '.');
    var fraction := if |pieces| < 2 then "0" else pieces[1];
    Total(ParseDigits(minsText), ParseDigits(pieces[0]), ParseDigits(PadEnd(fraction, 3, '0')))
  }

  /** `mins * 60 + secs + ms / 1000` seconds, in milliseconds; any unreadable field makes the whole unreadable. */
  function Total(mins: Option<nat>, secs: Option<nat>, ms: Option<nat>): Option<nat> {
    if mins.Some? && secs.Some? && ms.Some? then Some(mins.value * 60000 + secs.value * 1000 + ms.value) else None
  }

  // ---------------------------------------------------------------------------
  // Lemmas about digits

  lemma {:induction false} NatToStringValue(n: nat)
    ensures DigitsValue(NatToString(n)) == n
    decreases n
  {
    var s := NatToString(n);
    if n >= 10 {
      assert s[..|s| - 1] == NatToString(n / 10);
      NatToStringValue(n / 10);
    }
  }

  lemma {:induction false} ZerosValue(k: nat)
    ensures AllDigits(Repeat('0', k)) && DigitsValue(Repeat('0', k)) == 0
  {
    if k > 0 {
      assert Repeat('0', k)[..k - 1] == Repeat('0', k - 1);
      ZerosValue(k - 1);
    }
  }

  /** Leading zeros do not change the value of a run of digits. */
  lemma {:induction false} LeadingZerosValue(k: nat, s: string)
    requires AllDigits(s)
    ensures AllDigits(Repeat('0', k) + s) && DigitsValue(Repeat('0', k) + s) == DigitsValue(s)
    decreases |s|
  {
    var z := Repeat('0', k);
    if |s| == 0 {
      assert z + s == z;
      ZerosValue(k);
    } else {
      var t := z + s;
      assert t[..|t| - 1] == z + s[..|s| - 1];
      LeadingZerosValue(k, s[..|s| - 1]);
    }
  }

  /** Trailing zeros scale the value of a run of digits by a power of ten. */
  lemma {:induction false} TrailingZerosValue(s: string, k: nat)
    requires AllDigits(s)
    ensures AllDigits(s + Repeat('0', k)) && DigitsValue(s + Repeat('0', k)) == DigitsValue(s) * Pow10(k)
    decreases k
  {
    var t := s + Repeat('0', k);
    if k == 0 {
      assert t == s;
    } else {
      var shorter := s + Repeat('0', k - 1);
      assert t[..|t| - 1] == shorter;
      TrailingZerosValue(s, k - 1);
      assert t[|t| - 1] == '0';
      assert DigitsValue(t) == DigitsValue(shorter) * 10;
      ScaleByTen(DigitsValue(s), k);
    }
  }

  lemma ScaleByTen(v: nat, k: nat)
    requires k > 0
    ensures v * Pow10(k - 1) * 10 == v * Pow10(k)
  {
  }

  /** A number below 10^width, rendered and zero-padded to `width`, is exactly `width` digits and reads back as itself. */
  lemma PaddedNumber(n: nat, width: nat)
    requires width == 2 || width == 3
    requires n < Pow10(width)
    ensures |PadStart(NatToString(n), width, '0')| == width
    ensures AllDigits(PadStart(NatToString(n), width, '0'))
    ensures DigitsValue(PadStart(NatToString(n), width, '0')) == n
  {
    var s := NatToString(n);
    NatToStringValue(n);
    if |s| < width {
      LeadingZerosValue(width - |s|, s);
    }
  }

  // ---------------------------------------------------------------------------
  // Lemmas about Split

  lemma {:induction false} SplitWithoutSeparator(s: string, sep: char)
    requires sep !in s
    ensures Split(s, sep) == [s]
  {
    if |s| > 0 {
      assert sep !in s[1..] by {
        assert forall i :: 0 <= i < |s[1..]| ==> s[1..][i] == s[i + 1];
      }
      SplitWithoutSeparator(s[1..], sep);
      assert [s[0]] + s[1..] == s;
    }
  }

  /** The first separator ends the first piece. */
  lemma {:induction false} SplitAtFirst(a: string, sep: char, b: string)
    requires sep !in a
    ensures Split(a + [sep] + b, sep) == [a] + Split(b, sep)
  {
    var s := a + [sep] + b;
    if |a| == 0 {
      assert s[1..] == b;
    } else {
      assert s[1..] == a[1..] + [sep] + b;
      assert sep !in a[1..] by {
        assert forall i :: 0 <= i < |a[1..]| ==> a[1..][i] == a[i + 1];
      }
      SplitAtFirst(a[1..], sep, b);
      assert [a[0]] + a[1..] == a;
    }
  }

  /** Joining the pieces of a split gives back the text. */
  lemma {:induction false} JoinSplit(s: string, sep: char)
    ensures Join(Split(s, sep), sep) == s
  {
    if |s| > 0 {
      var rest := Split(s[1..], sep);
      JoinSplit(s[1..], sep);
      if s[0] != sep {
        var parts := Split(s, sep);
        if |rest| == 1 {
          assert parts == [[s[0]] + rest[0]];
        } else {
          assert parts[1..] == rest[1..];
          assert Join(rest, sep) == rest[0] + [sep] + Join(rest[1..], sep);
        }
      }
    }
  }

  lemma DigitsHaveNoSeparator(s: string, sep: char)
    requires AllDigits(s) && !IsDigit(sep)
    ensures sep !in s
  {
  }

  // ---------------------------------------------------------------------------
  // Properties of the codec

  lemma ClockArithmetic(t: nat)
    ensures (t / 60000) * 60000 + (t / 1000 % 60) * 1000 + t % 1000 == t
  {
    var q := t / 1000;
    assert t == q * 1000 + t % 1000;
    assert q == (q / 60) * 60 + q % 60;
    assert q / 60 == t / 60000;
  }

  /** How `Parse` takes apart text of the shape minutes `:` seconds `.` fraction. */
  lemma ParseClockText(mins: string, secs: string, frac: string, m: nat, s: nat, f: nat)
    requires ':' !in mins && ':' !in secs && ':' !in frac && '.' !in secs && '.' !in frac
    requires ParseDigits(mins) == Some(m) && ParseDigits(secs) == Some(s) && ParseDigits(PadEnd(frac, 3, '0')) == Some(f)
    ensures Parse(Clock(mins, secs, frac)) == Some(m * 60000 + s * 1000 + f)
  {
    var tail := secs + ['.'] + frac;
    assert Clock(mins, secs, frac) == mins + [':'] + tail;
    assert ':' !in tail;
    SplitAtFirst(mins, ':', tail);
    SplitWithoutSeparator(tail, ':');
    SplitAtFirst(secs, '.', frac);
    SplitWithoutSeparator(frac, '.');
  }

  /** The three fields `Format` renders: free of separators, and each reads back as its number. */
  lemma FormatFields(t: nat)
    ensures var mins, secs, frac := NatToString(t / 60000),
                                    PadStart(NatToString(t / 1000 % 60), 2, '0'),
                                    PadStart(NatToString(t % 1000), 3, '0');
      && ':' !in mins && ':' !in secs && ':' !in frac && '.' !in secs && '.' !in frac
      && ParseDigits(mins) == Some(t / 60000)
      && ParseDigits(secs) == Some(t / 1000 % 60)
      && ParseDigits(PadEnd(frac, 3, '0')) == Some(t % 1000)
  {
    var mins := NatToString(t / 60000);
    var secs := PadStart(NatToString(t / 1000 % 60), 2, '0');
    var frac := PadStart(NatToString(t % 1000), 3, '0');
    NatToStringValue(t / 60000);
    PaddedNumber(t / 1000 % 60, 2);
    PaddedNumber(t % 1000, 3);
    FieldsWithoutSeparators(mins, secs, frac);
    assert PadEnd(frac, 3, '0') == frac;
  }

  /** Reading a rendered time gives back exactly the same number of milliseconds. */
  lemma RoundTrip(t: nat)
    ensures Parse(Format(t)) == Some(t)
  {
    FormatFields(t);
    ParseClockText(NatToString(t / 60000), PadStart(NatToString(t / 1000 % 60), 2, '0'),
      PadStart(NatToString(t % 1000), 3, '0'), t / 60000, t / 1000 % 60, t % 1000);
    ClockArithmetic(t);
  }

  /** Rendering a real position floors it to the millisecond; the round trip then loses less than 1 ms. */
  lemma RoundTripWithinOneMillisecond(seconds: real)
    requires seconds >= 0.0
    ensures var t := (seconds * 1000.0).Floor;
      t >= 0 && Parse(Format(t)) == Some(t) && seconds - 0.001 < t as real / 1000.0 <= seconds
  {
    var t := (seconds * 1000.0).Floor;
    RoundTrip(t);
  }

  /** Text without a `:` is refused. */
  lemma NoColonFails(text: string)
    requires ':' !in text
    ensures Parse(text) == None
  {
    SplitWithoutSeparator(text, ':');
  }

  lemma FieldsWithoutSeparators(mins: string, secs: string, frac: string)
    requires AllDigits(mins) && AllDigits(secs) && AllDigits(frac)
    ensures ':' !in mins && ':' !in secs && ':' !in frac && '.' !in secs && '.' !in frac
  {
    DigitsHaveNoSeparator(mins, ':');
    DigitsHaveNoSeparator(secs, ':');
    DigitsHaveNoSeparator(secs, '.');
    DigitsHaveNoSeparator(frac, ':');
    DigitsHaveNoSeparator(frac, '.');
  }

  /**
    The milliseconds a fraction of `digits` digits with value `value`
    stands for, read as decimals of a second: one digit counts tenths, two
    count hundredths, three count thousandths.
  */
  function FractionMillis(value: nat, digits: nat): nat {
    if digits == 1 then value * 100 else if digits == 2 then value * 10 else value
  }

  /** Right-padding a fraction of one to three digits to three digits gives its milliseconds. */
  lemma PaddedFraction(frac: string, d: nat)
    requires ParseDigits(frac) == Some(d) && |frac| <= 3
    ensures ParseDigits(PadEnd(frac, 3, '0')) == Some(FractionMillis(d, |frac|))
  {
    var k: nat := 3 - |frac|;
    assert PadEnd(frac, 3, '0') == frac + Repeat('0', k);
    TrailingZerosValue(frac, k);
    if k == 2 {
      assert Pow10(2) == 100;
    } else if k == 1 {
      assert Pow10(1) == 10;
    }
  }

  /**
    A fraction of one to three digits is read as decimals of a second: it
    is right-padded with zeros, so "5" counts 500 ms and "25" counts 250 ms.
  */
  lemma ShortFraction(mins: string, secs: string, frac: string, m: nat, s: nat, d: nat)
    requires ParseDigits(mins) == Some(m) && ParseDigits(secs) == Some(s)
    requires ParseDigits(frac) == Some(d) && |frac| <= 3
    ensures Parse(Clock(mins, secs, frac)) == Some(m * 60000 + s * 1000 + FractionMillis(d, |frac|))
  {
    PaddedFraction(frac, d);
    FieldsWithoutSeparators(mins, secs, frac);
    ParseClockText(mins, secs, frac, m, s, FractionMillis(d, |frac|));
  }

  /** A `.` with nothing after it counts 0 ms. */
  lemma EmptyFraction(mins: string, secs: string, m: nat, s: nat)
    requires ParseDigits(mins) == Some(m) && ParseDigits(secs) == Some(s)
    ensures Parse(Clock(mins, secs, "")) == Some(m * 60000 + s * 1000)
  {
    assert ParseDigits(PadEnd("", 3, '0')) == Some(0) by {
      assert PadEnd("", 3, '0') == Repeat('0', 3);
      ZerosValue(3);
    }
    FieldsWithoutSeparators(mins, secs, "");
    ParseClockText(mins, secs, "", m, s, 0);
  }

  /** The text minutes `:` seconds, with no fraction. */
  function ClockNoFraction(mins: string, secs: string): string {
    mins + ":" + secs
  }

  /** How `Parse` takes apart text of the shape minutes `:` seconds. */
  lemma ParseNoFractionText(mins: string, secs: string, m: nat, s: nat)
    requires ':' !in mins && ':' !in secs && '.' !in secs
    requires ParseDigits(mins) == Some(m) && ParseDigits(secs) == Some(s)
    ensures Parse(ClockNoFraction(mins, secs)) == Some(m * 60000 + s * 1000)
  {
    assert ClockNoFraction(mins, secs) == mins + [':'] + secs;
    SplitAtFirst(mins, ':', secs);
    SplitWithoutSeparator(secs, ':');
    SplitWithoutSeparator(secs, '.');
    assert ParseDigits(PadEnd("0", 3, '0')) == Some(0) by {
      assert PadEnd("0", 3, '0') == "0" + Repeat('0', 2);
      TrailingZerosValue("0", 2);
    }
  }

  /** Without a fraction the milliseconds default to 0. */
  lemma MissingFraction(mins: string, secs: string, m: nat, s: nat)
    requires ParseDigits(mins) == Some(m) && ParseDigits(secs) == Some(s)
    ensures Parse(ClockNoFraction(mins, secs)) == Some(m * 60000 + s * 1000)
  {
    FieldsWithoutSeparators(mins, secs, "");
    ParseNoFractionText(mins, secs, m, s);
  }

  /** "1:05.5" is 65.5 s: the single fraction digit counts tenths. */
  lemma ShortFractionExample()
    ensures Parse("1:05.5") == Some(65500)
  {
    assert ParseDigits("05") == Some(5) by { assert "05"[..1] == "0" && "0"[..0] == ""; }
    assert ParseDigits("1") == Some(1) by { assert "1"[..0] == ""; }
    assert ParseDigits("5") == Some(5) by { assert "5"[..0] == ""; }
    assert Clock("1", "05", "5") == "1:05.5";
    ShortFraction("1", "05", "5", 1, 5, 5);
  }

  /** "2:03" is 123 s. */
  lemma MissingFractionExample()
    ensures Parse("2:03") == Some(123000)
  {
    assert ParseDigits("03") == Some(3) by { assert "03"[..1] == "0" && "0"[..0] == ""; }
    assert ParseDigits("2") == Some(2) by { assert "2"[..0] == ""; }
    assert ClockNoFraction("2", "03") == "2:03";
    MissingFraction("2", "03", 2, 3);
  }

  /** "105" has no `:` and is refused. */
  lemma NoColonExample()
    ensures Parse("105") == None
  {
    NoColonFails("105");
  }
}
