/**
 The text of an integer conversion: what the digit buffer, the padding loops and the prefixes of
 the formatter produce, for a digit buffer of any capacity.
 */
module IntegerText {
  import opened Arithmetic

  datatype Flags = Flags(zeropad: bool, left: bool, plus: bool, space: bool, hash: bool, upper: bool, precision: bool)

  // ----- Digits

  function Digit(d: nat, upper: bool): (c: char)
    requires d < 16
  {
    if d < 10 then ('0' as int + d) as char
    else if upper then ('A' as int + d - 10) as char
    else ('a' as int + d - 10) as char
  }

  /** The value of a digit; any other character counts as zero. */
  function DigitValue(c: char): (d: nat) {
    if '0' <= c <= '9' then c as int - '0' as int
    else if 'A' <= c <= 'F' then c as int - 'A' as int + 10
    else if 'a' <= c <= 'f' then c as int - 'a' as int + 10
    else 0
  }

  /** The characters that may surround a number. */
  predicate Mark(c: char) {
    c == ' ' || c == '+' || c == '-'
  }

  /** The letters of the hexadecimal prefixes. */
  predicate Letter(c: char) {
    c == 'x' || c == 'X'
  }

  /** The number that a text denotes in `base`, its marks skipped. */
  function Evaluate(s: string, base: nat): (n: nat) {
    if s == "" then 0
    else
      var (front, last) := (s[..|s| - 1], s[|s| - 1]);
      if Mark(last) then Evaluate(front, base) else Evaluate(front, base) * base + DigitValue(last)
  }

  /** The digits of `value`, most significant first, without leading zeros; zero has one digit. */
  function Numeral(value: nat, base: nat, upper: bool): (s: string)
    requires 2 <= base <= 16
    ensures |s| > 0
    decreases value
  {
    if value < base then [Digit(value, upper)]
    else Numeral(value / base, base, upper) + [Digit(value % base, upper)]
  }

  function Power(base: nat, n: nat): (p: nat)
    ensures base > 0 ==> p > 0
  {
    if n == 0 then 1 else Power(base, n - 1) * base
  }

  function Repeat(c: char, n: int): (s: string)
    ensures |s| == if n > 0 then n else 0
    ensures forall i :: 0 <= i < |s| ==> s[i] == c
  {
    if n <= 0 then "" else Repeat(c, n - 1) + [c]
  }

  function ZeroExtend(s: string, n: int): (r: string)
    ensures |r| == if n > |s| then n else |s|
  {
    Repeat('0', n - |s|) + s
  }

  function Justify(s: string, width: nat, left: bool): (r: string)
    ensures |r| == if width > |s| then width else |s|
  {
    if left then s + Repeat(' ', width - |s|) else Repeat(' ', width - |s|) + s
  }

  function Sign(negative: bool, f: Flags): (s: string) {
    if negative then "-" else if f.plus then "+" else if f.space then " " else ""
  }

  // ----- What the formatter produces

  /** The digits that fit the digit buffer, most significant first. */
  function BufferedDigits(value: nat, base: nat, upper: bool, capacity: nat): (s: string)
    requires 2 <= base <= 16 && capacity > 0
    ensures 0 < |s| <= capacity
    decreases capacity
  {
    (if value / base != 0 && capacity > 1 then BufferedDigits(value / base, base, upper, capacity - 1) else "")
    + [Digit(value % base, upper)]
  }

  function Max(a: int, b: int): (m: int) {
    if a < b then b else a
  }

  function Min(a: nat, b: nat): (m: nat) {
    if a < b then a else b
  }

  /** The width left for the digits once a sign is taken from a zero-padded field. */
  function DigitWidth(negative: bool, width: nat, f: Flags): (w: nat) {
    if !f.left && width > 0 && f.zeropad && (negative || f.plus || f.space) then width - 1 else width
  }

  function Zeroed(digits: string, negative: bool, prec: nat, width: nat, f: Flags, capacity: nat): (s: string)
    requires |digits| <= capacity
    ensures |s| <= capacity
  {
    if f.left then digits
    else
      var s := ZeroExtend(digits, Min(prec, capacity));
      if f.zeropad then ZeroExtend(s, Min(DigitWidth(negative, width, f), capacity)) else s
  }

  /** The number of leading characters that give way to a prefix. */
  function PrefixRoom(s: string, base: nat, prec: nat, width: nat, f: Flags): (n: nat)
    ensures n <= |s|
  {
    if !f.precision && s != "" && (|s| == prec || |s| == width)
    then if |s| > 1 && base == 16 then 2 else 1
    else 0
  }

  function Prefixed(s: string, base: nat, prec: nat, width: nat, f: Flags, capacity: nat): (r: string)
    requires |s| <= capacity
    ensures |r| <= capacity
  {
    if !f.hash then s
    else
      var kept := s[PrefixRoom(s, base, prec, width, f)..];
      var marked :=
        if base == 16 && |kept| < capacity then [if f.upper then 'X' else 'x'] + kept
        else if base == 2 && |kept| < capacity then "b" + kept
        else kept;
      if |marked| < capacity then "0" + marked else marked
  }

  function Signed(s: string, negative: bool, f: Flags, capacity: nat): (r: string)
    requires |s| <= capacity
    ensures |r| <= capacity
  {
    if |s| < capacity then Sign(negative, f) + s else s
  }

  function Padded(s: string, width: nat, f: Flags): (r: string) {
    if f.left || !f.zeropad then Justify(s, width, f.left) else s
  }

  /** The text for given digits. */
  function FormattedDigits(digits: string, negative: bool, base: nat, prec: nat, width: nat, f: Flags, capacity: nat)
    : (s: string)
    requires |digits| <= capacity
  {
    var w := DigitWidth(negative, width, f);
    var s := Prefixed(Zeroed(digits, negative, prec, width, f, capacity), base, prec, w, f, capacity);
    Padded(Signed(s, negative, f, capacity), w, f)
  }

  function NaturalDigits(value: nat, base: nat, f: Flags, capacity: nat): (s: string)
    requires 2 <= base <= 16 && capacity > 0
    ensures |s| <= capacity
  {
    if !f.precision || value != 0 then BufferedDigits(value, base, f.upper, capacity) else ""
  }

  function ConversionText(value: nat, negative: bool, base: nat, prec: nat, width: nat, f: Flags, capacity: nat)
    : (s: string)
    requires 2 <= base <= 16 && capacity > 0
  {
    var f := f.(hash := f.hash && value != 0);
    FormattedDigits(NaturalDigits(value, base, f, capacity), negative, base, prec, width, f, capacity)
  }

  // ----- Digits denote the value

  lemma {:induction false} DigitDenotes(d: nat, upper: bool)
    requires d < 16
    ensures DigitValue(Digit(d, upper)) == d && !Mark(Digit(d, upper)) && !Letter(Digit(d, upper))
    ensures Digit(d, upper) == '0' <==> d == 0
  {}

  /** A numeral that is not a digit is a shorter numeral followed by a digit. */
  lemma {:induction false} NumeralSplits(value: nat, base: nat, upper: bool) returns (q: nat, d: nat)
    requires 2 <= base <= 16
    ensures d < base && value == q * base + d && q == value / base && d == value % base
    ensures Numeral(value, base, upper) == (if q == 0 then "" else Numeral(q, base, upper)) + [Digit(d, upper)]
    ensures q <= value && (value > 0 ==> q < value) && (q == 0 <==> value < base)
  {
    hide Digit;
    q, d := value / base, value % base;
    Quotient(value, base);
  }

  lemma {:induction false} Quotient(value: nat, base: nat)
    requires base >= 2
    ensures value == value / base * base + value % base && value % base < base
    ensures value / base <= value && (value > 0 ==> value / base < value) && (value / base == 0 <==> value < base)
  {
    var q := value / base;
    assert value == q * base + value % base;
    assert q * base >= q * 2 by {
      assert q * base == q * 2 + q * (base - 2);
    }
  }

  lemma {:induction false} EvaluateSnoc(s: string, c: char, base: nat)
    ensures Evaluate(s + [c], base) == if Mark(c) then Evaluate(s, base) else Evaluate(s, base) * base + DigitValue(c)
  {
    assert (s + [c])[..|s|] == s;
  }

  lemma {:induction false} NumeralDenotes(value: nat, base: nat, upper: bool)
    requires 2 <= base <= 16
    ensures Evaluate(Numeral(value, base, upper), base) == value
    decreases value
  {
    hide Digit, DigitValue, Mark, Numeral;
    var q, d := NumeralSplits(value, base, upper);
    DigitDenotes(d, upper);
    EvaluateSnoc(if q == 0 then "" else Numeral(q, base, upper), Digit(d, upper), base);
    if q > 0 {
      NumeralDenotes(q, base, upper);
    }
  }

  ghost predicate NoMarks(s: string) {
    forall i :: 0 <= i < |s| ==> !Mark(s[i])
  }

  ghost predicate DigitsOf(s: string, base: nat) {
    forall i :: 0 <= i < |s| ==> !Mark(s[i]) && !Letter(s[i]) && DigitValue(s[i]) < base
  }

  ghost predicate AllMarks(s: string) {
    forall i :: 0 <= i < |s| ==> Mark(s[i])
  }

  lemma {:induction false} NumeralUnmarked(value: nat, base: nat, upper: bool)
    requires 2 <= base <= 16
    ensures DigitsOf(Numeral(value, base, upper), base)
    ensures value > 0 ==> DigitValue(Numeral(value, base, upper)[0]) > 0 && Numeral(value, base, upper)[0] != '0'
    decreases value
  {
    hide Digit, DigitValue, Mark, Letter, Numeral;
    var q, d := NumeralSplits(value, base, upper);
    DigitDenotes(d, upper);
    if q > 0 {
      NumeralUnmarked(q, base, upper);
    }
  }

  /** The digit buffer holds the last digits of the numeral, as many as fit. */
  lemma {:induction false} BufferedIsSuffix(value: nat, base: nat, upper: bool, capacity: nat)
    requires 2 <= base <= 16 && capacity > 0
    ensures var (n, b) := (Numeral(value, base, upper), BufferedDigits(value, base, upper, capacity));
      |b| == Min(|n|, capacity) && b == n[|n| - |b|..]
    decreases capacity
  {
    hide Digit, Numeral;
    var q, d := NumeralSplits(value, base, upper);
    if q > 0 && capacity > 1 {
      BufferedIsSuffix(q, base, upper, capacity - 1);
    }
  }

  lemma {:induction false} EvaluateEmpty(base: nat)
    ensures Evaluate("", base) == 0
  {}

  lemma {:induction false} EvaluateConcat(s: string, t: string, base: nat)
    requires NoMarks(t)
    ensures Evaluate(s + t, base) == Evaluate(s, base) * Power(base, |t|) + Evaluate(t, base)
  {
    hide DigitValue, Mark, Evaluate;
    if t == "" {
      assert s + t == s;
      EvaluateEmpty(base);
    } else {
      var (front, last) := (t[..|t| - 1], t[|t| - 1]);
      EvaluateConcat(s, front, base);
      assert s + t == (s + front) + [last];
      EvaluateSnoc(s + front, last, base);
      EvaluateSnoc(front, last, base);
      assert t == front + [last];
      Distribute(Evaluate(s, base), Power(base, |front|), Evaluate(front, base), base);
    }
  }

  lemma {:induction false} Distribute(a: nat, p: nat, e: nat, base: nat)
    ensures (a * p + e) * base == a * (p * base) + e * base
  {}

  lemma {:induction false} LeadingMarksAreSkipped(t: string, s: string, base: nat)
    requires AllMarks(t)
    ensures Evaluate(t + s, base) == Evaluate(s, base)
  {
    if s == "" {
      assert t + s == "" + t;
      MarksAreSkipped("", t, base);
    } else {
      var (front, last) := (s[..|s| - 1], s[|s| - 1]);
      LeadingMarksAreSkipped(t, front, base);
      assert t + s == (t + front) + [last];
      EvaluateSnoc(t + front, last, base);
    }
  }

  lemma {:induction false} MarksAreSkipped(s: string, t: string, base: nat)
    requires AllMarks(t)
    ensures Evaluate(s + t, base) == Evaluate(s, base)
  {
    if t == "" {
      assert s + t == s;
    } else {
      MarksAreSkipped(s, t[..|t| - 1], base);
      assert s + t == (s + t[..|t| - 1]) + [t[|t| - 1]];
      EvaluateSnoc(s + t[..|t| - 1], t[|t| - 1], base);
    }
  }

  lemma {:induction false} ZerosAreZero(n: int, base: nat)
    ensures Evaluate(Repeat('0', n), base) == 0
  {
    hide Evaluate;
    if n > 0 {
      ZerosAreZero(n - 1, base);
      EvaluateSnoc(Repeat('0', n - 1), '0', base);
    } else {
      EvaluateEmpty(base);
    }
  }

  lemma {:induction false} EvaluateBound(s: string, base: nat)
    requires DigitsOf(s, base)
    ensures Evaluate(s, base) < Power(base, |s|)
  {
    if s != "" {
      var (front, last) := (s[..|s| - 1], s[|s| - 1]);
      EvaluateBound(front, base);
      BoundStep(Evaluate(front, base), Power(base, |front|), DigitValue(last), base);
    }
  }

  lemma {:induction false} BoundStep(e: nat, p: nat, d: nat, base: nat)
    requires e < p && d < base
    ensures e * base + d < p * base
  {
    assert (e + 1) * base <= p * base;
  }

  lemma {:induction false} PowerGrows(base: nat, n: nat, m: nat)
    requires base >= 1 && n <= m
    ensures 0 < Power(base, n) <= Power(base, m)
  {
    if n < m {
      PowerGrows(base, n, m - 1);
      assert Power(base, m - 1) * base >= Power(base, m - 1);
    } else if n > 0 {
      PowerGrows(base, n - 1, n - 1);
    }
  }

  /** The buffered digits denote the value modulo a power of the base. */
  lemma {:induction false} BufferedDenotes(value: nat, base: nat, upper: bool, capacity: nat)
    requires 2 <= base <= 16 && capacity > 0
    ensures var b := BufferedDigits(value, base, upper, capacity);
      && DigitsOf(b, base) && Evaluate(b, base) == value % Power(base, capacity)
      && (value < Power(base, capacity) ==> b == Numeral(value, base, upper))
  {
    hide Numeral, BufferedDigits, Evaluate, Power;
    var (n, b) := (Numeral(value, base, upper), BufferedDigits(value, base, upper, capacity));
    BufferedIsSuffix(value, base, upper, capacity);
    NumeralDenotes(value, base, upper);
    NumeralUnmarked(value, base, upper);
    PowerGrows(base, |b|, capacity);
    EvaluateBound(b, base);
    if |n| <= capacity {
      assert n == b;
      ModOf(0, Power(base, capacity), value);
    } else {
      var pre := n[..|n| - |b|];
      assert n == pre + b;
      EvaluateConcat(pre, b, base);
      ModOf(Evaluate(pre, base), Power(base, capacity), Evaluate(b, base));
      LongNumeral(value, base, upper, capacity);
    }
  }

  lemma {:induction false} Times(a: nat, b: nat, base: nat)
    requires a <= b
    ensures a * base <= b * base
  {
    assert b * base == a * base + (b - a) * base;
  }

  lemma {:induction false} LongNumeral(value: nat, base: nat, upper: bool, n: nat)
    requires 2 <= base <= 16 && |Numeral(value, base, upper)| > n
    ensures n > 0 ==> value >= Power(base, n)
    decreases n
  {
    hide Numeral;
    var q, d := NumeralSplits(value, base, upper);
    if n > 0 {
      if n > 1 {
        LongNumeral(q, base, upper, n - 1);
      }
      Times(Power(base, n - 1), q, base);
    }
  }

  /** Without a prefix, the text denotes the value as far as the digit buffer can hold it. */
  lemma {:induction false} ConversionDenotes(value: nat, negative: bool, base: nat, prec: nat, width: nat, f: Flags, capacity: nat)
    requires 2 <= base <= 16 && capacity > 0 && (f.hash ==> value == 0)
    ensures Evaluate(ConversionText(value, negative, base, prec, width, f, capacity), base) == value % Power(base, capacity)
  {
    hide Evaluate, Power, BufferedDigits;
    var digits := NaturalDigits(value, base, f, capacity);
    BufferedDenotes(value, base, f.upper, capacity);
    if digits == "" {
      ZerosAreZero(0, base);
      ModOf(0, Power(base, capacity), 0);
    }
    FormatDenotes(digits, negative, base, prec, width, f.(hash := false), capacity);
  }

  lemma {:induction false} FormatDenotes(digits: string, negative: bool, base: nat, prec: nat, width: nat, f: Flags, capacity: nat)
    requires |digits| <= capacity && !f.hash && base > 0 && DigitsOf(digits, base)
    ensures Evaluate(FormattedDigits(digits, negative, base, prec, width, f, capacity), base) == Evaluate(digits, base)
  {
    hide Evaluate;
    var s := Zeroed(digits, negative, prec, width, f, capacity);
    if !f.left {
      ExtendDenotes(digits, Min(prec, capacity), base);
      ExtendDenotes(ZeroExtend(digits, Min(prec, capacity)), Min(DigitWidth(negative, width, f), capacity), base);
    }
    assert Evaluate(s, base) == Evaluate(digits, base);
    LeadingMarksAreSkipped(Sign(negative, f), s, base);
    JustifyDenotes(Signed(s, negative, f, capacity), DigitWidth(negative, width, f), f.left, base);
  }

  lemma {:induction false} ExtendDenotes(s: string, n: int, base: nat)
    requires DigitsOf(s, base)
    ensures Evaluate(ZeroExtend(s, n), base) == Evaluate(s, base)
    ensures base > 0 ==> DigitsOf(ZeroExtend(s, n), base)
    ensures NoMarks(ZeroExtend(s, n))
  {
    EvaluateConcat(Repeat('0', n - |s|), s, base);
    ZerosAreZero(n - |s|, base);
  }

  lemma {:induction false} JustifyDenotes(s: string, width: nat, left: bool, base: nat)
    ensures Evaluate(Justify(s, width, left), base) == Evaluate(s, base)
  {
    MarksAreSkipped(s, Repeat(' ', width - |s|), base);
    LeadingMarksAreSkipped(Repeat(' ', width - |s|), s, base);
  }
}
