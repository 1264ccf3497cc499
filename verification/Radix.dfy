/** `utoa`: the digits of a number in a base, through a scratch buffer of 32 characters. */
module Radix {
  import opened Arithmetic

  const TEMP: nat := 32   // the length of temp[]
  const DIGITS: string := "0123456789ABCDEF"

  function Power(base: nat, n: nat): (r: nat)
    requires base > 0
    ensures r > 0
    decreases n, base
  {
    if n == 0 then 1 else base * Power(base, n - 1)
  }

  // ----- Reading digits back -----

  function Digit(d: nat): char
    requires d < 16
  {
    DIGITS[d]
  }

  function DigitValue(c: char): nat {
    if '0' <= c <= '9' then (c - '0') as nat else if 'A' <= c <= 'F' then (c - 'A') as nat + 10 else 16
  }

  predicate IsDigit(c: char, base: nat) {
    DigitValue(c) < base
  }

  /** The number a text of digits stands for. */
  function Eval(text: string, base: nat): nat {
    if text == "" then 0 else Eval(text[..|text| - 1], base) * base + DigitValue(text[|text| - 1])
  }

  /** A numeral: digits of the base, and no leading zero unless it is "0". */
  ghost predicate IsNumeral(text: string, base: nat)
    requires 2 <= base <= 16
  {
    && text != "" && (forall k :: 0 <= k < |text| ==> IsDigit(text[k], base))
    && (text[0] == '0' ==> text == "0")
  }

  // ----- The digits in the order in which they are found, least significant first -----

  function Reversed(text: string): (r: string)
    ensures |r| == |text|
  {
    if text == "" then "" else Reversed(text[1..]) + [text[0]]
  }

  /** The digits of `value`, least significant first; none for zero. */
  function LowFirst(value: nat, base: nat): (r: string)
    requires 2 <= base <= 16
    decreases value
  {
    if value == 0 then "" else [Digit(value % base)] + LowFirst(value / base, base)
  }

  function Text(value: nat, base: nat): string
    requires 2 <= base <= 16
  {
    if value == 0 then "0" else Reversed(LowFirst(value, base))
  }

  lemma DigitReads(d: nat)
    requires d < 16
    ensures DigitValue(Digit(d)) == d && (Digit(d) == '0' <==> d == 0)
  {
  }

  lemma DigitOfValue(c: char)
    requires IsDigit(c, 16)
    ensures Digit(DigitValue(c)) == c
  {
  }

  lemma {:induction false} ReversedAt(text: string, k: nat)
    requires k < |text|
    ensures Reversed(text)[k] == text[|text| - 1 - k]
  {
    if k < |text| - 1 {
      ReversedAt(text[1..], k);
    }
  }

  lemma EvalSnoc(text: string, c: char, base: nat)
    ensures Eval(text + [c], base) == Eval(text, base) * base + DigitValue(c)
  {
    assert (text + [c])[..|text|] == text;
  }

  /** One more digit at the low end. */
  lemma LowFirstStep(high: nat, low: nat, base: nat)
    requires 2 <= base <= 16 && low < base && (high > 0 || low > 0)
    ensures high * base + low > 0
    ensures Reversed(LowFirst(high * base + low, base)) == Reversed(LowFirst(high, base)) + [Digit(low)]
  {
    var value := high * base + low;
    assert value > 0 by {
      if high > 0 {
        assert high * base >= base;
      }
    }
    DivModUnique(value, base, high, low);
    assert LowFirst(value, base)[1..] == LowFirst(high, base);
  }

  lemma Quotient(v: nat, base: nat)
    requires v > 0 && base >= 2
    ensures v / base < v && v % base < base
  {
    var q := v / base;
    MulMonotone(2, base, q, q);
    assert base * q <= v;
  }

  /** The digits of a number that is not zero: its lowest one, then those of the quotient. */
  lemma LowFirstParts(value: nat, base: nat) returns (high: nat, low: nat)
    requires 2 <= base <= 16 && value > 0
    ensures high == value / base < value && low == value % base < base
    ensures LowFirst(value, base) == [Digit(low)] + LowFirst(high, base)
  {
    Quotient(value, base);
    high, low := value / base, value % base;
  }

  lemma PartsMakeWhole(value: nat, base: nat)
    requires base > 0
    ensures value / base * base + value % base == value
    ensures value > 0 ==> value / base > 0 || value % base > 0
  {
  }

  /** Evaluating the digits gives the value back. */
  lemma {:induction false} LowFirstEvals(value: nat, base: nat)
    requires 2 <= base <= 16
    ensures Eval(Reversed(LowFirst(value, base)), base) == value
    decreases value
  {
    if value > 0 {
      var high, low := value / base, value % base;
      Quotient(value, base);
      LowFirstEvals(high, base);
      PartsMakeWhole(value, base);
      LowFirstStep(high, low, base);
      EvalSnoc(Reversed(LowFirst(high, base)), Digit(low), base);
      DigitReads(low);
    }
  }

  lemma {:induction false} LowFirstDigits(value: nat, base: nat, k: nat)
    requires 2 <= base <= 16 && k < |LowFirst(value, base)|
    ensures IsDigit(LowFirst(value, base)[k], base)
    decreases k
  {
    var high, low := LowFirstParts(value, base);
    if k > 0 {
      LowFirstDigits(high, base, k - 1);
    } else {
      DigitReads(low);
    }
  }

  lemma {:induction false} LowFirstTop(value: nat, base: nat)
    requires 2 <= base <= 16 && value > 0
    ensures var r := LowFirst(value, base); r != "" && r[|r| - 1] != '0'
    decreases value
  {
    if value / base > 0 {
      LowFirstTop(value / base, base);
    } else {
      DivModUnique(value, base, 0, value);
      DigitReads(value);
    }
  }

  /** Round trip: the text is a numeral of the value. */
  lemma TextRoundTrip(value: nat, base: nat)
    requires 2 <= base <= 16
    ensures IsNumeral(Text(value, base), base) && Eval(Text(value, base), base) == value
  {
    LowFirstEvals(value, base);
    if value > 0 {
      LowFirstTop(value, base);
      var r := LowFirst(value, base);
      forall k | 0 <= k < |r|
        ensures Reversed(r)[k] == r[|r| - 1 - k] && IsDigit(Reversed(r)[k], base)
      {
        ReversedAt(r, k);
        LowFirstDigits(value, base, |r| - 1 - k);
      }
    } else {
      EvalSnoc("", '0', base);
      assert "" + ['0'] == "0";
    }
  }

  /** It is the only numeral of the value: every numeral is the text of the number it stands for. */
  lemma {:induction false} NumeralIsText(text: string, base: nat)
    requires 2 <= base <= 16 && IsNumeral(text, base)
    ensures text == Text(Eval(text, base), base)
    decreases |text|
  {
    var n := |text| - 1;
    var prefix, c := text[..n], text[n];
    assert text == prefix + [c];
    if n > 0 {
      NumeralIsText(prefix, base);
      TextSnoc(prefix, c, base);
    } else {
      OneDigit(c, base);
    }
  }

  lemma TextSnoc(prefix: string, c: char, base: nat)
    requires 2 <= base <= 16 && IsDigit(c, base) && prefix != "" && prefix[0] != '0'
    requires prefix == Text(Eval(prefix, base), base)
    ensures prefix + [c] == Text(Eval(prefix + [c], base), base)
  {
    EvalSnoc(prefix, c, base);
    DigitOfValue(c);
    LowFirstStep(Eval(prefix, base), DigitValue(c), base);
  }

  lemma OneDigit(c: char, base: nat)
    requires 2 <= base <= 16 && IsDigit(c, base)
    ensures [c] == Text(Eval([c], base), base)
  {
    EvalSnoc("", c, base);
    assert "" + [c] == [c];
    DigitOfValue(c);
    DigitReads(DigitValue(c));
    if DigitValue(c) > 0 {
      LowFirstStep(0, DigitValue(c), base);
    }
  }

  // ----- How long it is -----

  /** A number has at most `n` digits exactly when it is below `base` to the `n`. */
  lemma {:induction false} LengthIff(value: nat, base: nat, n: nat)
    requires 2 <= base <= 16
    ensures |LowFirst(value, base)| <= n <==> value < Power(base, n)
    decreases n
  {
    if n > 0 && value > 0 {
      LengthIff(value / base, base, n - 1);
      var q := Power(base, n - 1);
      DivLess(value, base, q);
    }
  }

  lemma DivLess(value: nat, base: nat, q: nat)
    requires base > 0
    ensures value / base < q <==> value < base * q
  {
    if value / base < q {
      assert base * (value / base + 1) <= base * q;
    } else {
      assert base * q <= base * (value / base);
    }
  }

  lemma {:induction false} PowerMonotone(a: nat, b: nat, n: nat)
    requires 0 < a <= b
    ensures Power(a, n) <= Power(b, n)
    decreases n
  {
    if n > 0 {
      PowerMonotone(a, b, n - 1);
      MulMonotone(a, b, Power(a, n - 1), Power(b, n - 1));
    }
  }

  lemma MulMonotone(a: nat, b: nat, x: nat, y: nat)
    requires a <= b && x <= y
    ensures a * x <= b * y
  {
    assert a * x <= b * x <= b * y;
  }

  lemma {:induction false} PowerAdd(base: nat, m: nat, n: nat)
    requires base > 0
    ensures Power(base, m + n) == Power(base, m) * Power(base, n)
    decreases m
  {
    if m > 0 {
      PowerAdd(base, m - 1, n);
      assert base * (Power(base, m - 1) * Power(base, n)) == base * Power(base, m - 1) * Power(base, n);
    }
  }

  /** Every 64-bit number fits the scratch buffer in a base from 4 up. */
  lemma ScratchFits(value: nat, base: nat)
    requires value < TWO64 && 4 <= base <= 16
    ensures value < Power(base, TEMP)
  {
    PowerMonotone(4, base, TEMP);
    FourTo32();
  }

  lemma FourTo32()
    ensures Power(4, TEMP) == TWO64
  {
    var b, h := 4, 8;
    PowerAdd(b, h, h);
    PowerAdd(b, 2 * h, 2 * h);
    assert Power(4, 8) == 0x1_0000;
  }

  lemma ThreeTo32()
    ensures Power(3, TEMP) < TWO64
  {
    var b, h := 3, 8;
    PowerAdd(b, h, h);
    PowerAdd(b, 2 * h, 2 * h);
    assert Power(3, 8) == 6561;
  }

  /** In base 2 and in base 3 some do not. */
  lemma ScratchShort(base: nat) returns (value: nat)
    requires 2 <= base < 4
    ensures value < TWO64 && |LowFirst(value, base)| > TEMP
  {
    var n := TEMP;
    ThreeTo32();
    PowerMonotone(base, 3, n);
    value := Power(base, n);
    LengthIff(value, base, n);
  }

  /** The scratch buffer is long enough for every 64-bit number exactly in the bases from 4 up. */
  lemma ScratchFitsIff(base: nat)
    requires 2 <= base <= 16
    ensures (forall value: nat :: value < TWO64 ==> |LowFirst(value, base)| <= TEMP) <==> base >= 4
  {
    if base >= 4 {
      forall value: nat | value < TWO64
        ensures |LowFirst(value, base)| <= TEMP
      {
        ScratchFits(value, base);
        LengthIff(value, base, TEMP);
      }
    } else {
      var biggest := ScratchShort(base);
    }
  }

  /** In base 10 and in base 16 the text of a 64-bit number and its zero character fit the 32 bytes the callers have. */
  lemma CallersFit(value: nat, base: nat)
    requires value < TWO64 && 10 <= base <= 16
    ensures |Text(value, base)| <= 20
  {
    PowerMonotone(10, base, 20);
    TenTo20();
    LengthIff(value, base, 20);
  }

  lemma TenTo20()
    ensures Power(10, 20) >= TWO64
  {
    var b, h := 10, 5;
    PowerAdd(b, h, h);
    PowerAdd(b, 2 * h, 2 * h);
    assert Power(10, 5) == 100000;
  }

  // ----- The code -----

  /**
   `utoa`. `overrun` stands for writing past the scratch buffer, which stops here: it happens exactly for the numbers of
   more than 32 digits. Otherwise the buffer begins with the text and a zero character, and the rest is untouched.
   */
  method Utoa(value: nat, buffer: array<char>, base: nat) returns (overrun: bool)
    requires 2 <= base <= 16 && |Text(value, base)| < buffer.Length
    modifies buffer
    ensures overrun <==> value >= Power(base, TEMP)
    ensures overrun ==> buffer[..] == old(buffer[..])
    ensures !overrun ==> buffer[..] == Text(value, base) + ['\0'] + old(buffer[|Text(value, base)| + 1..])
  {
    LengthIff(value, base, TEMP);
    if value == 0 {
      PutZero(buffer);
      return false;
    }
    var temp := new char[TEMP];
    var i;
    overrun, i := FindDigits(value, base, temp);
    if !overrun {
      PutDigits(temp, i, buffer);
    }
  }

  /** The special case for zero. */
  method PutZero(buffer: array<char>)
    requires buffer.Length > 1
    modifies buffer
    ensures buffer[..] == "0" + ['\0'] + old(buffer[2..])
  {
    buffer[0] := '0';
    buffer[1] := '\0';
  }

  /** What follows the first loop: the digits in reading order, and the zero character. */
  method PutDigits(temp: array<char>, n: nat, buffer: array<char>)
    requires n <= temp.Length && n < buffer.Length && temp != buffer
    modifies buffer
    ensures buffer[..] == Reversed(temp[..n]) + ['\0'] + old(buffer[n + 1..])
  {
    var j := CopyReversed(temp, n, buffer);
    buffer[j] := '\0';
  }

  /** The first loop of `utoa`. */
  method FindDigits(value: nat, base: nat, temp: array<char>) returns (overrun: bool, i: nat)
    requires 2 <= base <= 16
    modifies temp
    ensures i <= temp.Length && (overrun <==> |LowFirst(value, base)| > temp.Length)
    ensures !overrun ==> temp[..i] == LowFirst(value, base)
  {
    ghost var all := LowFirst(value, base);
    i := 0;
    var v: nat := value;
    while v > 0
      invariant i <= temp.Length && i <= |all|
      invariant temp[..i] == all[..i] && all[i..] == LowFirst(v, base)
      decreases v
    {
      if i == temp.Length {
        return true, i;
      }
      var c, rest := SplitDigit(v, base);
      assert all[i..][1..] == all[i + 1..];
      temp[i] := c;
      i := i + 1;
      v := rest;
    }
    overrun := false;
  }

  /** `digits[value % base]` and `value / base`. */
  method SplitDigit(v: nat, base: nat) returns (c: char, rest: nat)
    requires v > 0 && 2 <= base <= 16
    ensures rest < v && LowFirst(v, base) == [c] + LowFirst(rest, base)
    ensures rest == v / base
  {
    Quotient(v, base);
    c, rest := DIGITS[v % base], v / base;
  }

  /** The second loop of `utoa`. */
  method CopyReversed(temp: array<char>, n: nat, buffer: array<char>) returns (j: nat)
    requires n <= temp.Length && n < buffer.Length && temp != buffer
    modifies buffer
    ensures j == n && buffer[..] == Reversed(temp[..n]) + old(buffer[n..])
  {
    ghost var was, r := buffer[..], Reversed(temp[..n]);
    var i: nat := n;
    j := 0;
    while i > 0
      invariant i + j == n
      invariant forall k :: 0 <= k < buffer.Length ==> buffer[k] == if k < j then r[k] else was[k]
    {
      i := i - 1;
      ReversedAt(temp[..n], j);
      buffer[j] := temp[i];
      j := j + 1;
    }
  }
}
