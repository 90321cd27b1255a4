/**
 The text that section 7.21.6.1 of ISO/IEC 9899:2011 asks for in an integer conversion, written
 independently of buffers, and exactly when the formatter produces it.  The binary conversion,
 which that standard does not have, follows the hexadecimal one, with the prefix `0b`.
 */
module IsoInteger {
  import opened IntegerText

  /** A value with its sign, and what a conversion specification says about it. */
  datatype Conversion = Conversion(value: nat, negative: bool, base: nat, prec: nat, width: nat, f: Flags)

  /** A base and flags with which the conversions of a format call the formatter: no `0` flag beside a precision,
      no precision without its flag, a sign for base ten only, and `#` for the other bases only. */
  predicate Called(k: Conversion) {
    && (k.base == 2 || k.base == 8 || k.base == 10 || k.base == 16)
    && (k.f.precision ==> !k.f.zeropad) && (!k.f.precision ==> k.prec == 0)
    && (k.f.hash ==> k.base != 10 && Sign(k.negative, k.f) == "")
  }

  function Text(k: Conversion, capacity: nat): (s: string)
    requires Called(k) && capacity > 0
  {
    ConversionText(k.value, k.negative, k.base, k.prec, k.width, k.f, capacity)
  }

  // ----- The standard's own terms

  const LOWER := "0123456789abcdef"
  const UPPER := "0123456789ABCDEF"

  function IsoDigit(d: nat, upper: bool): (c: char)
    requires d < 16
    ensures c == Digit(d, upper)
  {
    if upper then UPPER[d] else LOWER[d]
  }

  /** The digits of `value`, most significant first, without leading zeros. */
  function IsoNumeral(value: nat, base: nat, upper: bool): (s: string)
    requires 2 <= base <= 16
    ensures s == Numeral(value, base, upper)
    decreases value
  {
    if value < base then [IsoDigit(value, upper)]
    else IsoNumeral(value / base, base, upper) + [IsoDigit(value % base, upper)]
  }

  /** `n` copies of a character. */
  function Copies(c: char, n: int): (s: string)
    ensures s == Repeat(c, n)
  {
    if n <= 0 then "" else
      var s := seq(n, _ => c);
      assert s == Repeat(c, n);
      s
  }

  /** Zeros in front, up to `n` characters. */
  function WithZeros(s: string, n: int): (r: string)
    ensures r == ZeroExtend(s, n)
  {
    Copies('0', n - |s|) + s
  }

  /** Blanks behind the text for left justification, in front of it otherwise. */
  function Justified(s: string, width: nat, left: bool): (r: string)
    ensures r == Justify(s, width, left)
  {
    if |s| >= width then s
    else if left then s + Copies(' ', width - |s|)
    else Copies(' ', width - |s|) + s
  }

  /** A minus for negative values; otherwise a plus or a blank if the flags ask for one, the plus first. */
  function IsoSign(negative: bool, f: Flags): (s: string)
    ensures s == Sign(negative, f)
  {
    if negative then "-" else if f.plus then "+" else if f.space then " " else ""
  }

  // ----- What the standard asks for

  /** At least as many digits as the precision says, one by default; zero itself needs none. */
  function IsoNumber(k: Conversion): (s: string)
    requires Called(k)
  {
    WithZeros(if k.value == 0 then "" else IsoNumeral(k.value, k.base, k.f.upper), if k.f.precision then k.prec else 1)
  }

  /** The octal alternative form has a zero as its first digit. */
  function IsoDigits(k: Conversion): (s: string)
    requires Called(k)
  {
    var s := IsoNumber(k);
    if k.f.hash && k.base == 8 && (s == "" || s[0] != '0') then "0" + s else s
  }

  /** The other alternative forms have a prefix, unless the value is zero. */
  function IsoPrefix(k: Conversion): (s: string) {
    if !k.f.hash || k.value == 0 then ""
    else if k.base == 16 then if k.f.upper then "0X" else "0x"
    else if k.base == 2 then "0b"
    else ""
  }

  /** Zeros behind sign and prefix up to the width, when the `0` flag asks for them. */
  function IsoZeroed(k: Conversion): (s: string)
    requires Called(k)
  {
    var s := IsoDigits(k);
    if k.f.zeropad && !k.f.left && !k.f.precision
    then WithZeros(s, k.width - |IsoSign(k.negative, k.f)| - |IsoPrefix(k)|) else s
  }

  function IsoText(k: Conversion): (s: string)
    requires Called(k)
  {
    Justified(IsoSign(k.negative, k.f) + (IsoPrefix(k) + IsoZeroed(k)), k.width, k.f.left)
  }

  // ----- When the formatter meets it

  /** The number of digits that the formatter starts with. */
  function DigitCount(k: Conversion): (n: nat)
    requires Called(k)
  {
    if k.f.precision && k.value == 0 then 0 else |Numeral(k.value, k.base, k.f.upper)|
  }

  /** Digits and leading zeros; left justification suppresses the zeros. */
  function PaddedCount(k: Conversion): (n: nat)
    requires Called(k)
  {
    var n := DigitCount(k);
    if k.f.left then n
    else if k.f.zeropad then Max(n, k.width - |Sign(k.negative, k.f)|)
    else Max(n, k.prec)
  }

  /** A sign that a blank of the left padding replaces. */
  predicate SignIsPadding(k: Conversion, capacity: nat) {
    Sign(k.negative, k.f) == " " && !k.f.left && !k.f.zeropad && k.width > capacity
  }

  /**
   Without a prefix: digits and zeros fit the digit buffer together with the sign, and a precision
   beyond the number of digits does not meet left justification.
   */
  predicate Accommodates(k: Conversion, capacity: nat)
    requires Called(k)
  {
    var z := PaddedCount(k);
    && (k.f.left ==> k.prec <= DigitCount(k))
    && z <= capacity
    && (Sign(k.negative, k.f) == "" || z < capacity || SignIsPadding(k, capacity))
  }

  /** The formatter puts a prefix in place of leading characters of a number as long as its field. */
  predicate Replaces(k: Conversion, capacity: nat)
    requires Called(k)
  {
    !k.f.precision && Min(PaddedCount(k), capacity) == k.width
  }

  /** The leading characters are zeros that a prefix may replace. */
  predicate HasZeros(k: Conversion, room: nat)
    requires Called(k)
  {
    k.f.zeropad && !k.f.left && DigitCount(k) + room <= k.width
  }

  /**
   With a prefix of two characters: it replaces two zeros, or fits in front.  The binary prefix
   replaces one character only, so it must be one zero too long.
   */
  predicate PrefixFits(k: Conversion, capacity: nat)
    requires Called(k)
  {
    if Replaces(k, capacity) then
      if k.base == 16 then HasZeros(k, 2) else HasZeros(k, 1) && DigitCount(k) + 1 == k.width < capacity
    else
      PaddedCount(k) + 2 <= capacity && (k.f.left ==> k.prec <= DigitCount(k))
  }

  /** The number of digits of the octal alternative form. */
  function OctalCount(k: Conversion): (n: nat)
    requires Called(k)
  {
    Max(Max(DigitCount(k) + 1, k.prec), if k.f.zeropad && !k.f.left then k.width else 0)
  }

  /** The formatter adds a zero whether or not there is one, unless the digit buffer is full. */
  predicate ZeroFits(k: Conversion, capacity: nat)
    requires Called(k)
  {
    if Replaces(k, capacity) then HasZeros(k, 1) else Min(PaddedCount(k) + 1, capacity) == OctalCount(k)
  }

  /** The exact condition under which the formatter produces the standard's text. */
  predicate Conforms(k: Conversion, capacity: nat)
    requires Called(k)
  {
    if k.f.hash && k.value != 0 then
      if k.base == 8 then ZeroFits(k, capacity) else PrefixFits(k, capacity)
    else
      Accommodates(k, capacity) && !(k.f.hash && k.base == 8 && k.f.precision && k.prec == 0)
  }

  // ----- Characters that are no marks

  /** The number of characters that are no marks. */
  function Solid(s: string): (n: nat) {
    if s == "" then 0 else Solid(s[..|s| - 1]) + if Mark(s[|s| - 1]) then 0 else 1
  }

  lemma {:induction false} SolidConcat(s: string, t: string)
    ensures Solid(s + t) == Solid(s) + Solid(t)
  {
    if t == "" {
      assert s + t == s;
    } else {
      SolidConcat(s, t[..|t| - 1]);
      assert (s + t)[..|s + t| - 1] == s + t[..|t| - 1];
    }
  }

  lemma {:induction false} SolidBounds(s: string)
    ensures NoMarks(s) ==> Solid(s) == |s|
    ensures AllMarks(s) ==> Solid(s) == 0
  {
    if s != "" {
      SolidBounds(s[..|s| - 1]);
    }
  }

  lemma {:induction false} SolidJustified(sign: string, s: string, width: nat, left: bool)
    requires AllMarks(sign) && NoMarks(s)
    ensures Solid(sign + s) == |s| && Solid(Justify(sign + s, width, left)) == |s|
  {
    var pad := Repeat(' ', width - |sign + s|);
    SolidBounds(sign);
    SolidBounds(s);
    SolidBounds(pad);
    SolidConcat(sign, s);
    SolidConcat(sign + s, pad);
    SolidConcat(pad, sign + s);
  }

  lemma {:induction false} SolidPadded(s: string, negative: bool, width: nat, f: Flags, capacity: nat)
    requires |s| <= capacity && NoMarks(s)
    ensures Solid(Padded(Signed(s, negative, f, capacity), width, f)) == |s|
    ensures AllMarks(Sign(negative, f))
  {
    hide Solid;
    assert "" + s == s;
    SolidJustified(Sign(negative, f), s, width, f.left);
    SolidJustified("", s, width, f.left);
  }

  // ----- Without a prefix

  lemma {:induction false} IsoNumberUnmarked(k: Conversion)
    requires Called(k)
    ensures DigitsOf(IsoNumber(k), k.base) && DigitsOf(IsoZeroed(k), k.base)
    ensures |IsoZeroed(k)| >= |IsoDigits(k)| >= |IsoNumber(k)|
    ensures k.f.zeropad && !k.f.left ==> |Sign(k.negative, k.f)| + |IsoPrefix(k)| + |IsoZeroed(k)| >= k.width
  {
    hide Numeral, Sign, IsoSign, IsoNumeral, WithZeros;
    NumeralUnmarked(k.value, k.base, k.f.upper);
  }

  lemma {:induction false} ZeroedUnmarked(k: Conversion, capacity: nat)
    requires Called(k) && capacity > 0
    ensures DigitsOf(Zeroed(NaturalDigits(k.value, k.base, k.f, capacity), k.negative, k.prec, k.width, k.f, capacity), k.base)
  {
    hide BufferedDigits, ZeroExtend, Mark, Letter, Evaluate, DigitValue;
    BufferedDenotes(k.value, k.base, k.f.upper, capacity);
    var digits := NaturalDigits(k.value, k.base, k.f, capacity);
    ExtendDenotes(digits, Min(k.prec, capacity), k.base);
    ExtendDenotes(ZeroExtend(digits, Min(k.prec, capacity)), Min(DigitWidth(k.negative, k.width, k.f), capacity), k.base);
  }

  function Digits(k: Conversion): (s: string)
    requires Called(k)
    ensures |s| == DigitCount(k)
  {
    if k.f.precision && k.value == 0 then "" else Numeral(k.value, k.base, k.f.upper)
  }

  lemma {:induction false} NaturalIsDigits(k: Conversion, capacity: nat)
    requires Called(k) && capacity > 0
    ensures var s := NaturalDigits(k.value, k.base, k.f, capacity);
      |s| == Min(DigitCount(k), capacity) && (DigitCount(k) <= capacity ==> s == Digits(k))
  {
    hide Numeral, BufferedDigits;
    BufferedIsSuffix(k.value, k.base, k.f.upper, capacity);
  }

  lemma {:induction false} ZeroedIsExtended(s: string, negative: bool, prec: nat, width: nat, f: Flags, capacity: nat)
    requires |s| <= capacity && (f.zeropad ==> prec == 0)
    ensures Zeroed(s, negative, prec, width, f, capacity)
         == ZeroExtend(s, if f.left then 0 else if f.zeropad then Min(DigitWidth(negative, width, f), capacity) else Min(prec, capacity))
  {}

  /** What the formatter pads, and how many characters that makes. */
  lemma {:induction false} PaddedDigits(k: Conversion, capacity: nat)
    requires Called(k) && capacity > 0
    ensures var s := Zeroed(NaturalDigits(k.value, k.base, k.f, capacity), k.negative, k.prec, k.width, k.f, capacity);
      && |s| == Min(PaddedCount(k), capacity)
      && (PaddedCount(k) <= capacity ==> s == ZeroExtend(Digits(k), PaddedCount(k)))
  {
    hide NaturalDigits, Zeroed, DigitCount, Digits;
    NaturalIsDigits(k, capacity);
    ZeroedIsExtended(NaturalDigits(k.value, k.base, k.f, capacity), k.negative, k.prec, k.width, k.f, capacity);
  }

  /** The standard's digits and zeros, for a number without a prefix. */
  lemma {:induction false} IsoPaddedDigits(k: Conversion)
    requires Called(k) && !k.f.hash
    ensures k.f.left && k.prec > DigitCount(k) ==> |IsoZeroed(k)| == k.prec
    ensures (k.f.left ==> k.prec <= DigitCount(k)) ==>
      IsoZeroed(k) == ZeroExtend(Digits(k), PaddedCount(k))
  {
    var n := Numeral(k.value, k.base, k.f.upper);
    assert k.value == 0 ==> n == "0";
    if !k.f.precision {
      assert IsoNumber(k) == n;
    }
  }

  /** With the same digits and zeros, the texts differ only in a sign that the digit buffer has no room for. */
  lemma {:induction false} SignAgrees(s: string, negative: bool, width: nat, f: Flags, capacity: nat)
    requires |s| <= capacity && capacity > 0 && NoMarks(s)
    requires f.zeropad && !f.left ==> |s| + |Sign(negative, f)| >= width
    ensures Padded(Signed(s, negative, f, capacity), DigitWidth(negative, width, f), f)
         == Justify(Sign(negative, f) + s, width, f.left)
       <==> Sign(negative, f) == "" || |s| < capacity || (Sign(negative, f) == " " && !f.left && !f.zeropad && width > capacity)
  {
    var sign := Sign(negative, f);
    var (code, iso) := (Padded(Signed(s, negative, f, capacity), DigitWidth(negative, width, f), f),
                        Justify(sign + s, width, f.left));
    if sign != "" && |s| == capacity {
      if Sign(negative, f) == " " && !f.left && !f.zeropad && width > capacity {
        assert Repeat(' ', width - |s|) == Repeat(' ', width - |s| - 1) + " ";
        assert code == iso;
      } else if f.left {
        assert iso[0] == sign[0] && code[0] == s[0];
      } else if !f.zeropad && width > capacity {
        assert iso[width - |s| - 1] == sign[0] && code[width - |s| - 1] == ' ';
      }
    }
  }

  lemma {:induction false} PlainMeetsIsoIff(k: Conversion, capacity: nat)
    requires Called(k) && !k.f.hash && capacity > 0
    ensures Text(k, capacity) == IsoText(k) <==> Accommodates(k, capacity)
  {
    hide IsoZeroed, Text, IsoText, DigitCount, PaddedCount, Sign, SignIsPadding;
    if PaddedCount(k) <= capacity && (k.f.left ==> k.prec <= DigitCount(k)) {
      EnoughDigits(k, capacity);
    } else {
      TooFewDigits(k, capacity);
    }
  }

  lemma {:induction false} PlainText(k: Conversion, capacity: nat)
    requires Called(k) && !k.f.hash && capacity > 0
    ensures var s := Zeroed(NaturalDigits(k.value, k.base, k.f, capacity), k.negative, k.prec, k.width, k.f, capacity);
      Text(k, capacity) == Padded(Signed(s, k.negative, k.f, capacity), DigitWidth(k.negative, k.width, k.f), k.f)
    ensures IsoText(k) == Justify(Sign(k.negative, k.f) + IsoZeroed(k), k.width, k.f.left) && IsoPrefix(k) == ""
  {
    hide IsoZeroed, Zeroed, NaturalDigits, Signed, Padded, Justify, Sign;
    assert k.f.(hash := k.f.hash && k.value != 0) == k.f && "" + IsoZeroed(k) == IsoZeroed(k);
  }

  lemma {:induction false} EnoughDigits(k: Conversion, capacity: nat)
    requires Called(k) && !k.f.hash && capacity > 0
    requires PaddedCount(k) <= capacity && (k.f.left ==> k.prec <= DigitCount(k))
    ensures Text(k, capacity) == IsoText(k)
       <==> Sign(k.negative, k.f) == "" || PaddedCount(k) < capacity || SignIsPadding(k, capacity)
  {
    hide IsoZeroed, Zeroed, NaturalDigits, DigitCount, PaddedCount, Signed, Padded, Justify, Sign, Text, IsoText;
    var s := IsoZeroed(k);
    PlainText(k, capacity);
    IsoNumberUnmarked(k);
    PaddedDigits(k, capacity);
    IsoPaddedDigits(k);
    SignAgrees(s, k.negative, k.width, k.f, capacity);
  }

  lemma {:induction false} TooFewDigits(k: Conversion, capacity: nat)
    requires Called(k) && !k.f.hash && capacity > 0
    requires PaddedCount(k) > capacity || (k.f.left && k.prec > DigitCount(k))
    ensures Text(k, capacity) != IsoText(k)
  {
    hide IsoZeroed, Zeroed, NaturalDigits, DigitCount, PaddedCount, Signed, Padded, Justify, Sign, Solid, Mark, Text, IsoText;
    var s := Zeroed(NaturalDigits(k.value, k.base, k.f, capacity), k.negative, k.prec, k.width, k.f, capacity);
    PlainText(k, capacity);
    ZeroedUnmarked(k, capacity);
    IsoNumberUnmarked(k);
    PaddedDigits(k, capacity);
    TooFew(k, capacity);
    SolidPadded(s, k.negative, DigitWidth(k.negative, k.width, k.f), k.f, capacity);
    SolidJustified(Sign(k.negative, k.f), IsoZeroed(k), k.width, k.f.left);
  }

  lemma {:induction false} TooFew(k: Conversion, capacity: nat)
    requires Called(k) && !k.f.hash && capacity > 0
    requires PaddedCount(k) > capacity || (k.f.left && k.prec > DigitCount(k))
    ensures Min(PaddedCount(k), capacity) < |IsoZeroed(k)|
  {
    hide Numeral;
    IsoPaddedDigits(k);
  }

  // ----- With a prefix

  predicate Alternative(k: Conversion) {
    Called(k) && k.f.hash && k.value != 0
  }

  /** What the formatter surrounds by padding. */
  function Core(k: Conversion, capacity: nat): (s: string)
    requires Alternative(k) && capacity > 0
  {
    var s := Zeroed(NaturalDigits(k.value, k.base, k.f, capacity), k.negative, k.prec, k.width, k.f, capacity);
    Prefixed(s, k.base, k.prec, k.width, k.f, capacity)
  }

  lemma {:induction false} AlternativeText(k: Conversion, capacity: nat)
    requires Alternative(k) && capacity > 0
    ensures Text(k, capacity) == Padded(Core(k, capacity), k.width, k.f)
    ensures IsoText(k) == Justify(IsoPrefix(k) + IsoZeroed(k), k.width, k.f.left)
  {
    hide IsoZeroed, Zeroed, NaturalDigits, Prefixed, Padded, Justify, IsoPrefix;
    assert k.f.(hash := k.f.hash && k.value != 0) == k.f;
    assert "" + Core(k, capacity) == Core(k, capacity);
    assert "" + (IsoPrefix(k) + IsoZeroed(k)) == IsoPrefix(k) + IsoZeroed(k);
  }

  /** Two texts without marks agree in a field exactly when they are equal. */
  lemma {:induction false} FieldsAgreeIff(s: string, t: string, width: nat, f: Flags)
    requires NoMarks(s) && NoMarks(t) && (f.zeropad && !f.left ==> |t| >= width)
    ensures Padded(s, width, f) == Justify(t, width, f.left) <==> s == t
  {
    hide Solid, Mark;
    SolidJustified("", s, width, f.left);
    SolidJustified("", t, width, f.left);
    assert "" + s == s && "" + t == t;
    if |s| == |t| {
      var pad := Repeat(' ', width - |s|);
      if f.left {
        assert (s + pad)[..|s|] == s && (t + pad)[..|s|] == t;
      } else {
        assert (pad + s)[|pad|..] == s && (pad + t)[|pad|..] == t;
      }
    }
  }

  lemma {:induction false} CoreUnmarked(k: Conversion, capacity: nat)
    requires Alternative(k) && capacity > 0
    ensures NoMarks(Core(k, capacity)) && NoMarks(IsoPrefix(k) + IsoZeroed(k))
  {
    hide Zeroed, NaturalDigits, IsoZeroed, Prefixed, DigitValue, Mark, Letter;
    ZeroedUnmarked(k, capacity);
    IsoNumberUnmarked(k);
    PrefixUnmarked(k);
    var s := Zeroed(NaturalDigits(k.value, k.base, k.f, capacity), k.negative, k.prec, k.width, k.f, capacity);
    PrefixedUnmarked(s, k.base, k.prec, k.width, k.f, capacity);
  }

  lemma {:induction false} PrefixUnmarked(k: Conversion)
    ensures NoMarks(IsoPrefix(k))
  {}

  lemma {:induction false} PrefixedUnmarked(s: string, base: nat, prec: nat, width: nat, f: Flags, capacity: nat)
    requires |s| <= capacity && NoMarks(s)
    ensures NoMarks(Prefixed(s, base, prec, width, f, capacity))
  {
    hide PrefixRoom;
    var kept := s[PrefixRoom(s, base, prec, width, f)..];
    assert NoMarks(kept);
  }

  /** The standard's digits behind a prefix. */
  lemma {:induction false} IsoPrefixedDigits(k: Conversion)
    requires Alternative(k) && k.base != 8
    ensures IsoZeroed(k) == ZeroExtend(Digits(k), Max(k.prec, if k.f.zeropad && !k.f.left then k.width - 2 else 0))
    ensures |IsoPrefix(k)| == 2 && IsoPrefix(k)[0] == '0'
  {
    hide Numeral, ZeroExtend;
    var n := Digits(k);
    LeadingZero(n, if k.f.precision then k.prec else 1);
    LeadingZero(n, k.prec);
    TwiceExtended(n, k.prec, k.width - 2);
  }

  lemma {:induction false} TwiceExtended(s: string, m: int, n: int)
    ensures ZeroExtend(ZeroExtend(s, m), n) == ZeroExtend(s, Max(m, n))
  {}

  lemma {:induction false} LeadingZero(s: string, n: int)
    ensures n > |s| ==> ZeroExtend(s, n)[0] == '0'
    ensures n <= |s| ==> ZeroExtend(s, n) == s
    ensures n >= |s| ==> "0" + ZeroExtend(s, n) == ZeroExtend(s, n + 1)
    ensures n > |s| ==> ZeroExtend(s, n)[1..] == ZeroExtend(s, n - 1)
  {}

  /** The standard's digits in the octal alternative form. */
  lemma {:induction false} IsoOctalDigits(k: Conversion)
    requires Alternative(k) && k.base == 8
    ensures IsoZeroed(k) == ZeroExtend(Digits(k), OctalCount(k)) && IsoPrefix(k) == ""
  {
    hide Numeral, ZeroExtend;
    NumeralUnmarked(k.value, k.base, k.f.upper);
    var n := Digits(k);
    LeadingZero(n, if k.f.precision then k.prec else 1);
    LeadingZero(n, |n|);
    assert IsoDigits(k) == ZeroExtend(n, Max(|n| + 1, k.prec));
    TwiceExtended(n, Max(|n| + 1, k.prec), k.width);
  }

  // ----- The formatter's core

  /** The padded digits before a prefix is put in front. */
  function PaddedText(k: Conversion, capacity: nat): (s: string)
    requires Alternative(k) && capacity > 0
    ensures |s| <= capacity
  {
    Zeroed(NaturalDigits(k.value, k.base, k.f, capacity), k.negative, k.prec, k.width, k.f, capacity)
  }

  /** The formatter's core, by the number of characters that the prefix replaces. */
  lemma {:induction false} CoreCases(k: Conversion, capacity: nat)
    requires Alternative(k) && capacity > 0
    ensures var (s, x) := (PaddedText(k, capacity), IsoPrefix(k));
      && |s| == Min(PaddedCount(k), capacity) > 0 && DigitsOf(s, k.base)
      && (PaddedCount(k) <= capacity ==> s == ZeroExtend(Digits(k), PaddedCount(k)))
      && PrefixRoom(s, k.base, k.prec, k.width, k.f)
         == if !Replaces(k, capacity) then 0 else if |s| > 1 && k.base == 16 then 2 else 1
  {
    hide Zeroed, NaturalDigits, PaddedCount;
    PaddedDigits(k, capacity);
    ZeroedUnmarked(k, capacity);
    PaddedIsPositive(k);
  }

  lemma {:induction false} PaddedIsPositive(k: Conversion)
    requires Alternative(k)
    ensures PaddedCount(k) >= DigitCount(k) > 0
  {}

  /** The letter of a prefix. */
  function PrefixLetter(base: nat, upper: bool): (c: char)
    ensures c != '0'
  {
    if base == 16 then if upper then 'X' else 'x' else 'b'
  }

  /** Digits `t` behind a prefix of two characters, as far as the digit buffer has room. */
  function WithPrefix(x: char, t: string, capacity: nat): (s: string) {
    if |t| + 2 <= capacity then "0" + ([x] + t) else if |t| + 1 <= capacity then [x] + t else t
  }

  lemma {:induction false} PrefixedIs(s: string, base: nat, prec: nat, width: nat, f: Flags, capacity: nat)
    requires |s| <= capacity && f.hash && (base == 2 || base == 16)
    ensures Prefixed(s, base, prec, width, f, capacity)
         == WithPrefix(PrefixLetter(base, f.upper), s[PrefixRoom(s, base, prec, width, f)..], capacity)
  {
    hide PrefixRoom;
  }

  /** Only a whole prefix will do. */
  lemma {:induction false} WholePrefixIff(x: char, t: string, z: string, capacity: nat)
    requires x != '0' && forall i :: 0 <= i < |t| ==> t[i] != x
    ensures WithPrefix(x, t, capacity) == "0" + ([x] + z) <==> |t| + 2 <= capacity && t == z
  {
    var b := "0" + ([x] + z);
    assert b[0] == '0' && b[1] == x && b[2..] == z;
    if |t| + 2 <= capacity {
      assert ("0" + ([x] + t))[2..] == t;
    } else if |t| + 1 <= capacity {
      assert ([x] + t)[0] == x;
    }
  }

  lemma {:induction false} IsoPrefixIs(k: Conversion, z: string)
    requires Alternative(k) && k.base != 8
    ensures IsoPrefix(k) + z == "0" + ([PrefixLetter(k.base, k.f.upper)] + z)
  {}

  /** Letters of prefixes are no digits of the base. */
  lemma {:induction false} LetterIsNoDigit(base: nat, upper: bool, s: string)
    requires (base == 2 || base == 16) && DigitsOf(s, base)
    ensures forall i :: 0 <= i < |s| ==> s[i] != PrefixLetter(base, upper)
  {}

  /** The digits behind the prefix. */
  function Kept(k: Conversion, capacity: nat): (t: string)
    requires Alternative(k) && capacity > 0
  {
    var s := PaddedText(k, capacity);
    s[PrefixRoom(s, k.base, k.prec, k.width, k.f)..]
  }

  lemma {:induction false} PrefixedCoreIff(k: Conversion, capacity: nat)
    requires Alternative(k) && capacity > 0 && k.base != 8
    ensures Core(k, capacity) == IsoPrefix(k) + IsoZeroed(k)
       <==> |Kept(k, capacity)| + 2 <= capacity && Kept(k, capacity) == IsoZeroed(k)
  {
    hide IsoZeroed, PrefixRoom, Prefixed, IsoPrefix, WithPrefix, PrefixLetter, DigitCount, PaddedCount, Zeroed, NaturalDigits;
    var (s, t, x) := (PaddedText(k, capacity), Kept(k, capacity), PrefixLetter(k.base, k.f.upper));
    CoreCases(k, capacity);
    LetterIsNoDigit(k.base, k.f.upper, t);
    PrefixedIs(s, k.base, k.prec, k.width, k.f, capacity);
    WholePrefixIff(x, t, IsoZeroed(k), capacity);
    IsoPrefixIs(k, IsoZeroed(k));
  }

  /** The digits behind the prefix are the standard's exactly under the stated condition. */
  lemma {:induction false} KeptIff(k: Conversion, capacity: nat)
    requires Alternative(k) && capacity > 0 && k.base != 8
    ensures |Kept(k, capacity)| + 2 <= capacity && Kept(k, capacity) == IsoZeroed(k) <==> PrefixFits(k, capacity)
  {
    hide PaddedText, PrefixRoom, IsoZeroed, IsoPrefix, Digits, DigitCount;
    CoreCases(k, capacity);
    IsoPrefixedDigits(k);
    PaddedIsPositive(k);
    var (z, n) := (PaddedCount(k), Digits(k));
    LeadingZero(n, z);
    LeadingZero(n, z - 1);
  }

  /** The octal digits are the standard's exactly under the stated condition. */
  lemma {:induction false} OctalCoreIff(k: Conversion, capacity: nat)
    requires Alternative(k) && capacity > 0 && k.base == 8
    ensures Core(k, capacity) == IsoZeroed(k) <==> ZeroFits(k, capacity)
  {
    hide Zeroed, NaturalDigits, PrefixRoom, IsoZeroed, IsoPrefix, Digits, DigitCount, ZeroExtend, Prefixed;
    CoreCases(k, capacity);
    IsoOctalDigits(k);
    PaddedIsPositive(k);
    OctalPrefixedIs(PaddedText(k, capacity), k.prec, k.width, k.f, capacity);
    var (z, n, s) := (PaddedCount(k), Digits(k), PaddedText(k, capacity));
    LeadingZero(n, z);
    LeadingZero(n, z - 1);
    assert s[0..] == s;
    if Replaces(k, capacity) {
      assert Core(k, capacity) == "0" + s[1..];
    } else {
      assert Core(k, capacity) == if |s| < capacity then "0" + s else s;
      assert |Core(k, capacity)| == Min(z + 1, capacity);
    }
  }

  lemma {:induction false} OctalPrefixedIs(s: string, prec: nat, width: nat, f: Flags, capacity: nat)
    requires |s| <= capacity && f.hash
    ensures var t := s[PrefixRoom(s, 8, prec, width, f)..];
      Prefixed(s, 8, prec, width, f, capacity) == if |t| < capacity then "0" + t else t
  {
    hide PrefixRoom;
  }

  lemma {:induction false} AlternativeMeetsIsoIff(k: Conversion, capacity: nat)
    requires Alternative(k) && capacity > 0
    ensures Text(k, capacity) == IsoText(k) <==> Conforms(k, capacity)
  {
    hide Text, IsoText, Core, IsoPrefix, IsoZeroed, Padded, Justify, ZeroFits, PrefixFits, Kept;
    AlternativeText(k, capacity);
    CoreUnmarked(k, capacity);
    IsoNumberUnmarked(k);
    FieldsAgreeIff(Core(k, capacity), IsoPrefix(k) + IsoZeroed(k), k.width, k.f);
    if k.base == 8 {
      OctalCoreIff(k, capacity);
      IsoOctalDigits(k);
      assert "" + IsoZeroed(k) == IsoZeroed(k);
    } else {
      PrefixedCoreIff(k, capacity);
      KeptIff(k, capacity);
    }
  }

  // ----- The theorem

  /** The formatter clears the `#` flag for zero. */
  lemma {:induction false} ZeroMeetsIsoIff(k: Conversion, capacity: nat)
    requires Called(k) && k.f.hash && k.value == 0 && capacity > 0
    ensures Text(k, capacity) == IsoText(k) <==> Conforms(k, capacity)
  {
    var k' := k.(f := k.f.(hash := false));
    assert Text(k, capacity) == Text(k', capacity);
    hide Text, Accommodates, Numeral;
    if k.base == 8 && k.f.precision && k.prec == 0 {
      NoDigits(k, capacity);
    } else {
      PlainMeetsIsoIff(k', capacity);
      SameAsPlain(k);
      assert Accommodates(k, capacity) == Accommodates(k', capacity) by { SameAccommodates(k, k', capacity); }
    }
  }

  lemma {:induction false} SameAccommodates(k: Conversion, k': Conversion, capacity: nat)
    requires Called(k) && k' == k.(f := k.f.(hash := false))
    ensures Called(k') && (Accommodates(k, capacity) <==> Accommodates(k', capacity))
  {}

  lemma {:induction false} SameAsPlain(k: Conversion)
    requires Called(k) && k.f.hash && k.value == 0 && !(k.base == 8 && k.f.precision && k.prec == 0)
    ensures IsoText(k) == IsoText(k.(f := k.f.(hash := false)))
  {
    hide Numeral, Justify;
    var k' := k.(f := k.f.(hash := false));
    assert IsoNumber(k) == IsoNumber(k');
    assert IsoDigits(k) == IsoDigits(k');
  }

  lemma {:induction false} NoDigits(k: Conversion, capacity: nat)
    requires Called(k) && k.f.hash && k.value == 0 && k.base == 8 && k.f.precision && k.prec == 0 && capacity > 0
    ensures Text(k, capacity) != IsoText(k)
  {
    var k' := k.(f := k.f.(hash := false));
    assert Text(k, capacity) == Text(k', capacity);
    assert IsoZeroed(k) == "0" && IsoPrefix(k) == "";
    hide Text, IsoText, Solid, Justify, Padded, Signed, Mark, Zeroed, NaturalDigits, IsoZeroed;
    PlainText(k', capacity);
    PaddedDigits(k', capacity);
    ZeroedUnmarked(k', capacity);
    var s := Zeroed(NaturalDigits(k'.value, k'.base, k'.f, capacity), k'.negative, k'.prec, k'.width, k'.f, capacity);
    SolidPadded(s, k'.negative, DigitWidth(k'.negative, k'.width, k'.f), k'.f, capacity);
    assert NoMarks("0");
    SolidJustified(Sign(k.negative, k.f), "0", k.width, k.f.left);
    assert "" + "0" == "0";
  }

  /** The formatter produces the standard's text exactly under the stated condition on digits, width,
      precision and capacity. */
  lemma {:induction false} MeetsIsoIff(k: Conversion, capacity: nat)
    requires Called(k) && capacity > 0
    ensures Text(k, capacity) == IsoText(k) <==> Conforms(k, capacity)
  {
    hide Text, IsoText, Accommodates;
    if !k.f.hash {
      PlainMeetsIsoIff(k, capacity);
    } else if k.value == 0 {
      ZeroMeetsIsoIff(k, capacity);
    } else {
      AlternativeMeetsIsoIff(k, capacity);
    }
  }

  // ----- The standard's text

  /** The number of digits before the octal alternative form is considered. */
  function NumberCount(k: Conversion): (n: nat)
    requires Called(k)
  {
    Max(if k.value == 0 then 0 else |Numeral(k.value, k.base, k.f.upper)|, if k.f.precision then k.prec else 1)
  }

  lemma {:induction false} IsoDigitsLength(k: Conversion)
    requires Called(k)
    ensures var n := if k.value == 0 then 0 else |Numeral(k.value, k.base, k.f.upper)|;
      |IsoDigits(k)| == if k.f.hash && k.base == 8 then Max(NumberCount(k), n + 1) else NumberCount(k)
  {
    hide Numeral, IsoNumeral, WithZeros, ZeroExtend, DigitsOf, DigitValue;
    NumeralUnmarked(k.value, k.base, k.f.upper);
    var n := if k.value == 0 then "" else Numeral(k.value, k.base, k.f.upper);
    LeadingZero(n, if k.f.precision then k.prec else 1);
  }

  /** The standard's text has the width asked for, or more when sign, prefix and digits need it. */
  lemma {:induction false} IsoTextLength(k: Conversion)
    requires Called(k)
    ensures var n := if k.value == 0 then 0 else |Numeral(k.value, k.base, k.f.upper)|;
      |IsoText(k)| == Max(k.width, |Sign(k.negative, k.f)| + |IsoPrefix(k)|
                                   + if k.f.hash && k.base == 8 then Max(NumberCount(k), n + 1) else NumberCount(k))
  {
    hide Numeral, Sign, IsoDigits, IsoPrefix, NumberCount;
    IsoDigitsLength(k);
  }

  /** It denotes the value; `0x` counts as two zeros. */
  lemma {:induction false} IsoTextDenotes(k: Conversion)
    requires Called(k) && (k.f.hash ==> k.base != 2)
    ensures Evaluate(IsoText(k), k.base) == k.value
  {
    hide Evaluate, Numeral, Justify, Sign, IsoSign, IsoNumeral, WithZeros, Justified, ZeroExtend;
    var n := if k.value == 0 then "" else Numeral(k.value, k.base, k.f.upper);
    EvaluateEmpty(k.base);
    if k.value > 0 {
      NumeralUnmarked(k.value, k.base, k.f.upper);
      NumeralDenotes(k.value, k.base, k.f.upper);
    }
    ExtendDenotes(n, if k.f.precision then k.prec else 1, k.base);
    LeadingZeroDenotes(IsoNumber(k), k.base);
    ExtendDenotes(IsoDigits(k), k.width - |Sign(k.negative, k.f)| - |IsoPrefix(k)|, k.base);
    PrefixDenotes(k, IsoZeroed(k));
    SignMarks(k);
    LeadingMarksAreSkipped(Sign(k.negative, k.f), IsoPrefix(k) + IsoZeroed(k), k.base);
    JustifyDenotes(Sign(k.negative, k.f) + (IsoPrefix(k) + IsoZeroed(k)), k.width, k.f.left, k.base);
  }

  lemma {:induction false} SignMarks(k: Conversion)
    ensures AllMarks(Sign(k.negative, k.f))
  {}

  lemma {:induction false} LeadingZeroDenotes(s: string, base: nat)
    requires DigitsOf(s, base) && base > 0
    ensures DigitsOf("0" + s, base) && Evaluate("0" + s, base) == Evaluate(s, base)
  {
    ExtendDenotes(s, |s| + 1, base);
    assert "0" + s == ZeroExtend(s, |s| + 1);
  }

  lemma {:induction false} PrefixDenotes(k: Conversion, z: string)
    requires Called(k) && (k.f.hash ==> k.base != 2) && DigitsOf(z, k.base)
    ensures Evaluate(IsoPrefix(k) + z, k.base) == Evaluate(z, k.base)
  {
    hide Evaluate;
    var x := IsoPrefix(k);
    if x == "" {
      assert x + z == z;
    } else {
      EvaluateConcat(x, z, k.base);
      EvaluateEmpty(k.base);
      EvaluateSnoc("", '0', k.base);
      EvaluateSnoc("0", x[1], k.base);
      assert "" + "0" == "0" && "0" + [x[1]] == x;
    }
  }

  // ----- Inputs that miss the standard's text

  const Hash := Flags(false, false, false, false, true, false, false)

  /** `%#4x` of 0x1234: a number as long as its field loses its first two digits to the prefix. */
  lemma {:induction false} PrefixExample(k: Conversion)
    requires k == Conversion(0x1234, false, 16, 0, 4, Hash)
    ensures Text(k, 32) == "0x34" && IsoText(k) == "0x1234" && !Conforms(k, 32)
  {
    hide Numeral, NaturalDigits;
    HexNumeral();
    NaturalIsDigits(k, 32);
    var s := Zeroed("1234", false, 0, 4, Hash, 32);
    assert s == "1234" && s[2..] == "34";
    assert Prefixed(s, 16, 0, 4, Hash, 32) == "0x34";
    assert IsoZeroed(k) == "1234" && IsoPrefix(k) == "0x";
  }

  lemma {:induction false} HexNumeral()
    ensures Numeral(0x1234, 16, false) == "1234"
  {
    assert Numeral(0x1, 16, false) == "1" && Numeral(0x12, 16, false) == "12" && Numeral(0x123, 16, false) == "123";
  }

  /** `%#.5o` of 8: the formatter adds a zero although the precision has supplied one. */
  lemma {:induction false} OctalExample(k: Conversion)
    requires k == Conversion(8, false, 8, 5, 0, Hash.(precision := true))
    ensures Text(k, 32) == "000010" && IsoText(k) == "00010" && !Conforms(k, 32)
  {
    assert Numeral(1, 8, false) == "1" && Numeral(8, 8, false) == "10";
    NaturalIsDigits(k, 32);
    assert Repeat('0', 3) == "000";
    var s := Zeroed("10", false, 5, 0, k.f, 32);
    assert s == "00010";
    assert Prefixed(s, 8, 5, 0, k.f, 32) == "000010";
    assert IsoZeroed(k) == "00010" && IsoPrefix(k) == "";
  }

  /** `%#.0o` of 0: the formatter forgets the `#` flag of a zero. */
  lemma {:induction false} OctalZeroExample(k: Conversion)
    requires k == Conversion(0, false, 8, 0, 0, Hash.(precision := true))
    ensures Text(k, 32) == "" && IsoText(k) == "0" && !Conforms(k, 32)
  {}

  // ----- Bounds on the formatter's text

  /** The part of the text that the digit buffer holds, sign included. */
  function Held(k: Conversion, capacity: nat): (s: string)
    requires Called(k) && capacity > 0
    ensures |s| <= capacity
  {
    var f := k.f.(hash := k.f.hash && k.value != 0);
    var w := DigitWidth(k.negative, k.width, f);
    var s := Zeroed(NaturalDigits(k.value, k.base, f, capacity), k.negative, k.prec, k.width, f, capacity);
    Signed(Prefixed(s, k.base, k.prec, w, f, capacity), k.negative, f, capacity)
  }

  lemma {:induction false} TextIsHeld(k: Conversion, capacity: nat)
    requires Called(k) && capacity > 0
    ensures Text(k, capacity) == Padded(Held(k, capacity), DigitWidth(k.negative, k.width, k.f), k.f)
  {
    hide Zeroed, NaturalDigits, Prefixed, Signed;
  }

  lemma {:induction false} HeldChars(k: Conversion, capacity: nat)
    requires Called(k) && capacity > 0
    ensures !k.negative ==> forall i :: 0 <= i < |Held(k, capacity)| ==> Held(k, capacity)[i] != '-'
  {
    hide Zeroed, NaturalDigits, Prefixed, Mark;
    var f := k.f.(hash := k.f.hash && k.value != 0);
    var s := Zeroed(NaturalDigits(k.value, k.base, f, capacity), k.negative, k.prec, k.width, f, capacity);
    ZeroedUnmarked(k.(f := f), capacity);
    PrefixedNoMinus(s, k.base, k.prec, DigitWidth(k.negative, k.width, f), f, capacity);
  }

  lemma {:induction false} PrefixedNoMinus(s: string, base: nat, prec: nat, width: nat, f: Flags, capacity: nat)
    requires |s| <= capacity && NoMarks(s)
    ensures forall i :: 0 <= i < |Prefixed(s, base, prec, width, f, capacity)| ==>
      Prefixed(s, base, prec, width, f, capacity)[i] != '-'
  {
    hide PrefixRoom;
  }

  /** Blanks are no part of the digit buffer's contribution. */
  lemma {:induction false} TextBounds(k: Conversion, capacity: nat)
    requires Called(k) && capacity > 0
    ensures |Text(k, capacity)| <= Max(k.width, capacity) && Solid(Text(k, capacity)) <= capacity
    ensures !k.negative ==> forall i :: 0 <= i < |Text(k, capacity)| ==> Text(k, capacity)[i] != '-'
  {
    hide Text, Held, Solid;
    TextIsHeld(k, capacity);
    HeldChars(k, capacity);
    var (s, w) := (Held(k, capacity), DigitWidth(k.negative, k.width, k.f));
    var pad := Repeat(' ', w - |s|);
    SolidAtMost(s);
    SolidBounds(pad);
    SolidConcat(s, pad);
    SolidConcat(pad, s);
  }

  lemma {:induction false} SolidAtMost(s: string)
    ensures Solid(s) <= |s|
  {
    if s != "" {
      SolidAtMost(s[..|s| - 1]);
    }
  }

  /** The characters of the standard's text that are no marks. */
  lemma {:induction false} IsoSolid(k: Conversion)
    requires Called(k)
    ensures Solid(IsoText(k)) == |IsoPrefix(k)| + |IsoZeroed(k)|
    ensures k.negative ==> exists i :: 0 <= i < |IsoText(k)| && IsoText(k)[i] == '-'
  {
    hide Solid, IsoZeroed, Mark;
    IsoNumberUnmarked(k);
    IsoPrefixUnmarked(k, IsoZeroed(k));
    SignMarks(k);
    var (sign, body) := (Sign(k.negative, k.f), IsoPrefix(k) + IsoZeroed(k));
    SolidJustified(sign, body, k.width, k.f.left);
    if k.negative {
      assert IsoText(k)[if k.f.left then 0 else |Repeat(' ', k.width - |sign + body|)|] == '-';
    }
  }

  lemma {:induction false} IsoPrefixUnmarked(k: Conversion, z: string)
    requires DigitsOf(z, k.base)
    ensures NoMarks(IsoPrefix(k) + z)
  {}

  /** A number without precision or zero padding fills the digit buffer with no more than the standard asks for. */
  lemma {:induction false} SolidOfBareNumber(k: Conversion, capacity: nat)
    requires Called(k) && capacity > 0 && k.value != 0 && k.f.precision && k.prec == 0
    ensures Solid(Text(k, capacity)) <= |IsoPrefix(k)| + |IsoDigits(k)|
  {
    hide Text, Solid, Zeroed, NaturalDigits, Mark, Padded, Justify, Numeral;
    PaddedDigits(k, capacity);
    IsoDigitsLength(k);
    if k.f.hash {
      AlternativeText(k, capacity);
      CoreUnmarked(k, capacity);
      SolidJustifiedField(Core(k, capacity), k.width, k.f);
    } else {
      var s := Zeroed(NaturalDigits(k.value, k.base, k.f, capacity), k.negative, k.prec, k.width, k.f, capacity);
      PlainText(k, capacity);
      ZeroedUnmarked(k, capacity);
      SolidPadded(s, k.negative, DigitWidth(k.negative, k.width, k.f), k.f, capacity);
    }
  }

  lemma {:induction false} SolidJustifiedField(s: string, width: nat, f: Flags)
    requires NoMarks(s)
    ensures Solid(Padded(s, width, f)) == |s|
  {
    hide Solid, Mark;
    SolidJustified("", s, width, f.left);
    assert "" + s == s;
  }

  // ----- Letters

  predicate LetterDigit(c: char) {
    'a' <= c <= 'f' || 'A' <= c <= 'F'
  }

  /** Every letter digit is of the given case. */
  ghost predicate InCase(s: string, upper: bool) {
    forall i :: 0 <= i < |s| && LetterDigit(s[i]) ==> if upper then 'A' <= s[i] <= 'F' else 'a' <= s[i] <= 'f'
  }

  lemma {:induction false} BufferedInCase(value: nat, base: nat, upper: bool, capacity: nat)
    requires 2 <= base <= 16 && capacity > 0
    ensures InCase(BufferedDigits(value, base, upper, capacity), upper)
    decreases capacity
  {
    DigitInCase(value % base, upper);
    if value / base != 0 && capacity > 1 {
      BufferedInCase(value / base, base, upper, capacity - 1);
    }
  }

  lemma {:induction false} DigitInCase(d: nat, upper: bool)
    requires d < 16
    ensures InCase([Digit(d, upper)], upper)
  {}

  lemma {:induction false} ZeroedInCase(s: string, negative: bool, prec: nat, width: nat, f: Flags, capacity: nat, upper: bool)
    requires |s| <= capacity && InCase(s, upper)
    ensures InCase(Zeroed(s, negative, prec, width, f, capacity), upper)
  {}

  lemma {:induction false} PrefixedInCase(s: string, base: nat, prec: nat, width: nat, f: Flags, capacity: nat, upper: bool)
    requires |s| <= capacity && InCase(s, upper) && (f.hash ==> base != 2)
    ensures InCase(Prefixed(s, base, prec, width, f, capacity), upper)
  {
    hide PrefixRoom;
  }

  lemma {:induction false} PaddedInCase(s: string, negative: bool, width: nat, f: Flags, capacity: nat, upper: bool)
    requires |s| <= capacity && InCase(s, upper)
    ensures InCase(Padded(Signed(s, negative, f, capacity), width, f), upper)
  {}

  /** Every letter digit of the formatter's text is of the case that the conversion asks for. */
  lemma {:induction false} TextInCase(k: Conversion, capacity: nat)
    requires Called(k) && capacity > 0 && (k.f.hash ==> k.base != 2)
    ensures InCase(Text(k, capacity), k.f.upper)
  {
    hide InCase, Zeroed, Prefixed, Padded, Signed;
    var f := k.f.(hash := k.f.hash && k.value != 0);
    var (w, u) := (DigitWidth(k.negative, k.width, f), f.upper);
    var digits := NaturalDigits(k.value, k.base, f, capacity);
    BufferedInCase(k.value, k.base, u, capacity);
    assert InCase("", u) by { NothingInCase(u); }
    ZeroedInCase(digits, k.negative, k.prec, k.width, f, capacity, u);
    var s := Zeroed(digits, k.negative, k.prec, k.width, f, capacity);
    PrefixedInCase(s, k.base, k.prec, w, f, capacity, u);
    PaddedInCase(Prefixed(s, k.base, k.prec, w, f, capacity), k.negative, w, f, capacity, u);
  }

  lemma {:induction false} NothingInCase(upper: bool)
    ensures InCase("", upper)
  {}
}
