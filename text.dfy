/**
 * Python text conversions the store relies on: `str` of an integer,
 * zero padding, `sep.join(...)`, `s.split(c)`, prefix slicing and `int(s)`.
 */
module Text {
  import opened Wrappers

  predicate IsDigit(c: char) { '0' <= c <= '9' }

  predicate AllDigits(s: string) { forall i :: 0 <= i < |s| ==> IsDigit(s[i]) }

  function DigitChar(d: nat): (c: char)
    requires d < 10
    ensures IsDigit(c) && c as int - '0' as int == d
  {
    "0123456789"[d]
  }

  function DigitValue(c: char): (d: nat)
    requires IsDigit(c)
    ensures d < 10 && DigitChar(d) == c
  {
    c as int - '0' as int
  }

  /** `str(n)` for a non-negative integer: no sign, no leading zero. */
  function NatToDecimal(n: nat): (s: string)
    ensures 1 <= |s| && AllDigits(s)
    ensures |s| > 1 ==> s[0] != '0'
    ensures n < 10 <==> |s| == 1
  {
    if n < 10 then [DigitChar(n)] else NatToDecimal(n / 10) + [DigitChar(n % 10)]
  }

  /** The value of a string of decimal digits; leading zeros are allowed. */
  function DecimalValue(s: string): nat
    requires AllDigits(s)
  {
    if s == [] then 0 else DecimalValue(s[..|s| - 1]) * 10 + DigitValue(s[|s| - 1])
  }

  lemma {:induction false} DecimalRoundTrip(n: nat)
    ensures DecimalValue(NatToDecimal(n)) == n
  {
    var s := NatToDecimal(n);
    if n >= 10 {
      DecimalRoundTrip(n / 10);
      assert s[..|s| - 1] == NatToDecimal(n / 10);
    }
  }

  lemma NatToDecimalInjective(m: nat, n: nat)
    requires NatToDecimal(m) == NatToDecimal(n)
    ensures m == n
  {
    DecimalRoundTrip(m);
    DecimalRoundTrip(n);
  }

  /** Three digits or more: numbers of 100 and up need no padding. */
  lemma {:induction false} NatToDecimalLength(n: nat)
    ensures n >= 100 ==> |NatToDecimal(n)| >= 3
    ensures n < 100 ==> |NatToDecimal(n)| <= 2
  {
    if n >= 10 { NatToDecimalLength(n / 10); }
  }

  /** `str(i)` for any integer. */
  function IntToDecimal(i: int): (s: string)
    ensures 1 <= |s|
    ensures i >= 0 <==> AllDigits(s)
    ensures i < 0 ==> s[0] == '-' && s[1..] == NatToDecimal(-i)
  {
    if i < 0 then
      var s := "-" + NatToDecimal(-i);
      assert !IsDigit(s[0]);
      s
    else NatToDecimal(i)
  }

  function Zeros(k: nat): (s: string)
    ensures |s| == k && AllDigits(s)
    ensures forall i :: 0 <= i < k ==> s[i] == '0'
  {
    if k == 0 then "" else Zeros(k - 1) + "0"
  }

  /**
   * Zero padding to a minimum width, as Python's `{i:03}` and `%03i` do for
   * a non-negative number: digits already at least `width` wide are kept.
   */
  function ZeroPad(digits: string, width: nat): (s: string)
    ensures |s| == if |digits| >= width then |digits| else width
    ensures s[|s| - |digits|..] == digits
  {
    if |digits| >= width then digits else Zeros(width - |digits|) + digits
  }

  lemma {:induction false} LeadingZerosValue(k: nat, s: string)
    requires AllDigits(s)
    ensures AllDigits(Zeros(k) + s) && DecimalValue(Zeros(k) + s) == DecimalValue(s)
    decreases |s|
  {
    var z := Zeros(k) + s;
    if s == [] {
      assert z == Zeros(k);
      ZerosValue(k);
    } else {
      assert z[..|z| - 1] == Zeros(k) + s[..|s| - 1];
      LeadingZerosValue(k, s[..|s| - 1]);
    }
  }

  lemma {:induction false} ZerosValue(k: nat)
    ensures DecimalValue(Zeros(k)) == 0
  {
    if k > 0 {
      assert Zeros(k)[..k - 1] == Zeros(k - 1);
      ZerosValue(k - 1);
    }
  }

  /** Padding never changes the number the digits denote. */
  lemma ZeroPadDigits(d: string, width: nat)
    requires AllDigits(d)
    ensures AllDigits(ZeroPad(d, width)) && DecimalValue(ZeroPad(d, width)) == DecimalValue(d)
  {
    if |d| < width {
      LeadingZerosValue(width - |d|, d);
    }
  }

  /** A zero-padded decimal still denotes its number. */
  lemma ZeroPadValue(n: nat, width: nat)
    ensures AllDigits(ZeroPad(NatToDecimal(n), width))
    ensures DecimalValue(ZeroPad(NatToDecimal(n), width)) == n
  {
    DecimalRoundTrip(n);
    ZeroPadDigits(NatToDecimal(n), width);
  }

  /** Python's `s[:n]` for a non-negative `n`. */
  function Take(s: string, n: nat): (t: string)
    ensures |t| == if |s| < n then |s| else n
    ensures t <= s
  {
    if |s| < n then s else s[..n]
  }

  /** Python's `sep.join(parts)`. */
  function Join(parts: seq<string>, sep: string): (s: string)
    ensures |parts| == 1 ==> s == parts[0]
  {
    if |parts| == 0 then ""
    else if |parts| == 1 then parts[0]
    else parts[0] + sep + Join(parts[1..], sep)
  }

  /** Python's `s.split(c)` for a one-character separator. */
  function Split(s: string, c: char): (parts: seq<string>)
    ensures |parts| >= 1
    ensures forall i :: 0 <= i < |parts| ==> c !in parts[i]
  {
    if s == [] then [""]
    else if s[0] == c then [""] + Split(s[1..], c)
    else var rest := Split(s[1..], c); [[s[0]] + rest[0]] + rest[1..]
  }

  lemma {:induction false} SplitNoSeparator(s: string, c: char)
    requires c !in s
    ensures Split(s, c) == [s]
  {
    if s != [] {
      SplitNoSeparator(s[1..], c);
      assert [s[0]] + s[1..] == s;
    }
  }

  lemma {:induction false} SplitAtFirst(a: string, c: char, b: string)
    requires c !in a
    ensures Split(a + [c] + b, c) == [a] + Split(b, c)
  {
    var s := a + [c] + b;
    if a == [] {
      assert s[1..] == b;
    } else {
      assert s[1..] == a[1..] + [c] + b;
      SplitAtFirst(a[1..], c, b);
      assert [a[0]] + a[1..] == a;
    }
  }

  /** A character the text does not hold is in none of its parts. */
  lemma {:induction false} SplitPartsWithout(s: string, c: char, x: char)
    requires x !in s
    ensures forall i :: 0 <= i < |Split(s, c)| ==> x !in Split(s, c)[i]
  {
    if s != [] {
      SplitPartsWithout(s[1..], c, x);
    }
  }

  /** Splitting at a separator between two texts splits each text on its own. */
  lemma {:induction false} SplitConcat(a: string, c: char, b: string)
    ensures Split(a + [c] + b, c) == Split(a, c) + Split(b, c)
  {
    var s := a + [c] + b;
    if a == [] {
      assert s[1..] == b;
    } else {
      assert s[1..] == a[1..] + [c] + b;
      SplitConcat(a[1..], c, b);
      if a[0] != c {
        var ra := Split(a[1..], c);
        var rest := Split(s[1..], c);
        assert rest[0] == ra[0] && rest[1..] == ra[1..] + Split(b, c);
      }
    }
  }

  /** Splitting a join gives the parts back when no part holds the separator. */
  lemma {:induction false} SplitJoin(parts: seq<string>, c: char)
    requires |parts| >= 1
    requires forall i :: 0 <= i < |parts| ==> c !in parts[i]
    ensures Split(Join(parts, [c]), c) == parts
  {
    if |parts| == 1 {
      SplitNoSeparator(parts[0], c);
    } else {
      SplitJoin(parts[1..], c);
      SplitAtFirst(parts[0], c, Join(parts[1..], [c]));
    }
  }

  /** Joining a split gives the text back, whatever it holds. */
  lemma {:induction false} JoinSplit(s: string, c: char)
    ensures Join(Split(s, c), [c]) == s
  {
    if s != [] {
      JoinSplit(s[1..], c);
      var rest := Split(s[1..], c);
      if s[0] != c && |rest| > 1 {
        assert ([[s[0]] + rest[0]] + rest[1..])[1..] == rest[1..];
      }
    }
  }

  /** Python's `int(s)` on a sign followed by ASCII digits. */
  function ParsePyInt(s: string): (r: Option<int>)
    ensures r.Some? <==> (|s| >= 1 && AllDigits(s)) || (|s| >= 2 && s[0] in "+-" && AllDigits(s[1..]))
  {
    if |s| >= 2 && s[0] == '-' then
      (if AllDigits(s[1..]) then Some(0 - DecimalValue(s[1..])) else None)
    else if |s| >= 2 && s[0] == '+' then
      (if AllDigits(s[1..]) then Some(DecimalValue(s[1..])) else None)
    else if |s| >= 1 && AllDigits(s) then Some(DecimalValue(s))
    else None
  }

  /** `int(str(i)) == i`. */
  lemma ParsePrintedInt(i: int)
    ensures ParsePyInt(IntToDecimal(i)) == Some(i)
  {
    if i < 0 {
      NegativeText(-i);
      ParseNegative(-i);
    } else {
      DecimalRoundTrip(i);
    }
  }

  /** A minus sign followed by digits parses to the negated value of the digits. */
  lemma ParseMinus(s: string)
    requires |s| >= 2 && s[0] == '-' && AllDigits(s[1..])
    ensures ParsePyInt(s) == Some(0 - DecimalValue(s[1..]))
  {
  }

  /** A negative number prints as a minus sign and its magnitude. */
  lemma NegativeText(n: nat)
    requires n > 0
    ensures IntToDecimal(-(n as int)) == "-" + NatToDecimal(n)
  {
  }

  /** Dropping the first character of `[c] + d` leaves `d`. */
  lemma DropHead(c: char, d: string)
    ensures ([c] + d)[1..] == d
  {
  }

  /** `int("-" + str(n)) == -n`. */
  lemma ParseNegative(n: nat)
    requires n > 0
    ensures ParsePyInt("-" + NatToDecimal(n)) == Some(-(n as int))
  {
    var d := NatToDecimal(n);
    DropHead('-', d);
    ParseMinus("-" + d);
    DecimalRoundTrip(n);
  }
}
