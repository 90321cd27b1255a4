/**
 What section 7.21.6.1 of ISO/IEC 9899:2011 makes of an integer conversion specification and of its
 arguments, and exactly when the formatter prints that.
 */
module IsoFormat {
  import opened Arithmetic
  import opened IntegerText
  import opened IsoInteger
  import opened Printf
  import opened FormatGrammar

  // ----- What the standard makes of it

  function IsoBase(conv: char): (base: nat)
    ensures base == 2 || base == 8 || base == 10 || base == 16
  {
    match conv case 'x' => 16 case 'X' => 16 case 'o' => 8 case 'b' => 2 case _ => 10
  }

  predicate SignedChar(conv: char) {
    conv == 'd' || conv == 'i'
  }

  /** The alternative form is defined for some conversions only. */
  predicate Defined(sp: Spec) {
    Valid(sp) && IntegerChar(sp.conv) && (Contains(sp.flags, '#') ==> IsoBase(sp.conv) != 10)
  }

  /** The type that conversion and modifier select: `hh` is `signed char` or `unsigned char`. */
  function TypeBits(m: Modifier): (n: nat)
    ensures n > 0
  {
    match m
    case Plain => 32 case HH => 8 case H => 16 case L => 32 case LL => 64 case J => 64 case Z => 32 case T => 32
  }

  function IsoOperand(sp: Spec, args: seq<Arg>, i: nat): (v: int) {
    var a := ArgInt(args, OperandAt(sp, i));
    if SignedChar(sp.conv) then AsSigned(a, TypeBits(sp.modifier)) else Unsigned(a, TypeBits(sp.modifier))
  }

  /** A precision is given unless there is no dot or it is a negative argument. */
  predicate HasPrecision(sp: Spec, args: seq<Arg>, i: nat) {
    sp.dot && FieldValue(sp.prec, args, i + Stars(sp.width)) >= 0
  }

  /** The flags that the standard honours. */
  function IsoFlags(sp: Spec, args: seq<Arg>, i: nat): (f: Flags) {
    Flags(Contains(sp.flags, '0') && !HasPrecision(sp, args, i),
          Contains(sp.flags, '-') || FieldValue(sp.width, args, i) < 0,
          Contains(sp.flags, '+') && SignedChar(sp.conv), Contains(sp.flags, ' ') && SignedChar(sp.conv),
          Contains(sp.flags, '#'), sp.conv == 'X', HasPrecision(sp, args, i))
  }

  function IsoConversion(sp: Spec, args: seq<Arg>, i: nat): (k: Conversion)
    requires Defined(sp)
    ensures Called(k)
  {
    var v := IsoOperand(sp, args, i);
    Conversion(Abs(v), v < 0, IsoBase(sp.conv),
               if HasPrecision(sp, args, i) then FieldValue(sp.prec, args, i + Stars(sp.width)) else 0,
               Abs(FieldValue(sp.width, args, i)), IsoFlags(sp, args, i))
  }

  /** What the formatter prints for an integer conversion. */
  function CodeText(sp: Spec, args: seq<Arg>, i: nat): (s: string)
  {
    DirectiveText(CodeDirective(sp, args, i), From(args, OperandAt(sp, i)))
  }

  // ----- When the formatter prints what the standard asks for

  /** A number in the format that a machine word holds. */
  predicate InRange(field: Field) {
    field.Number? ==> Evaluate(field.digits, 10) < WORD
  }

  /** The formatter's `char` is unsigned. */
  predicate CharIsRead(sp: Spec, args: seq<Arg>, i: nat) {
    SignedChar(sp.conv) && sp.modifier == HH ==> IsoOperand(sp, args, i) >= 0
  }

  predicate NegativePrecision(sp: Spec, args: seq<Arg>, i: nat) {
    sp.dot && FieldValue(sp.prec, args, i + Stars(sp.width)) < 0
  }

  /** The same conversion with a precision of zero. */
  function ZeroPrecision(k: Conversion): (k': Conversion) {
    k.(f := k.f.(precision := true, zeropad := false), prec := 0)
  }

  /** Sign, prefix and digits of a value without precision. */
  function BareCount(k: Conversion): (n: nat)
    requires Called(k)
  {
    |Sign(k.negative, k.f)| + |IsoPrefix(k)| + |Numeral(k.value, k.base, k.f.upper)|
    + if k.f.hash && k.base == 8 then 1 else 0
  }

  /**
   The exact condition on specification and arguments.  A negative precision, which the formatter
   takes for zero, does no harm to a value other than zero that needs no leading zeros.
   */
  predicate Faithful(sp: Spec, args: seq<Arg>, i: nat)
    requires Defined(sp)
  {
    var k := IsoConversion(sp, args, i);
    && InRange(sp.width) && InRange(sp.prec) && CharIsRead(sp, args, i)
    && if NegativePrecision(sp, args, i)
       then k.value != 0 && (k.f.zeropad && !k.f.left ==> k.width <= BareCount(k)) && Conforms(ZeroPrecision(k), 32)
       else Conforms(k, 32)
  }

  function CodeConversion(sp: Spec, args: seq<Arg>, i: nat): (k: Conversion)
    requires Defined(sp)
  {
    var d := CodeDirective(sp, args, i);
    var w := Operand(d, ArgInt(args, OperandAt(sp, i)));
    Conversion(Magnitude(w), w < 0, Base(d.conv), d.prec, d.width, IntegerFlags(d))
  }

  lemma {:induction false} CodeFlags(sp: Spec, args: seq<Arg>, i: nat)
    requires Defined(sp)
    ensures IntegerFlags(CodeDirective(sp, args, i))
         == Flags(Contains(sp.flags, '0') && !sp.dot, Contains(sp.flags, '-') || FieldValue(sp.width, args, i) < 0,
                  Contains(sp.flags, '+') && SignedChar(sp.conv), Contains(sp.flags, ' ') && SignedChar(sp.conv),
                  Contains(sp.flags, '#'), sp.conv == 'X', sp.dot)
  {
    hide Contains, FieldValue, Fold;
    FoldContains(sp.flags, NoFlags);
    FoldKeeps(sp.flags, NoFlags);
  }

  lemma {:induction false} CodeTextIs(sp: Spec, args: seq<Arg>, i: nat)
    requires Defined(sp)
    ensures Called(CodeConversion(sp, args, i)) && CodeText(sp, args, i) == Text(CodeConversion(sp, args, i), NTOA_SIZE)
  {
    hide Contains, IntegerFlags, ConversionText, Unsigned;
    CodeFlags(sp, args, i);
  }

  lemma {:induction false} SameOperand(sp: Spec, args: seq<Arg>, i: nat)
    requires Defined(sp)
    ensures CharIsRead(sp, args, i) ==>
      Operand(CodeDirective(sp, args, i), ArgInt(args, OperandAt(sp, i))) == IsoOperand(sp, args, i)
    ensures SignedChar(sp.conv) && sp.modifier == HH ==> Operand(CodeDirective(sp, args, i), ArgInt(args, OperandAt(sp, i))) >= 0
  {
    hide Unsigned, ArgInt, OperandAt;
  }

  lemma {:induction false} FieldRange(field: Field, args: seq<Arg>, i: nat)
    ensures InRange(field) ==> Abs(FieldValue(field, args, i)) < WORD
  {
    hide AsSigned, Evaluate;
    if field.Star? {
      IntRange(ArgInt(args, i));
    }
  }

  /** Read within its limits, a specification means what the standard says, but for a negative precision. */
  lemma {:induction false} SameConversion(sp: Spec, args: seq<Arg>, i: nat)
    requires Defined(sp) && InRange(sp.width) && InRange(sp.prec) && CharIsRead(sp, args, i)
    ensures var k := IsoConversion(sp, args, i);
      CodeConversion(sp, args, i) == if NegativePrecision(sp, args, i) then ZeroPrecision(k) else k
  {
    hide Contains, FieldValue, IntegerFlags, Operand, IsoOperand, InRange, CharIsRead, OperandAt;
    CodeFlags(sp, args, i);
    SameOperand(sp, args, i);
    FieldRange(sp.width, args, i);
    FieldRange(sp.prec, args, i + Stars(sp.width));
    NoDotNoValue(sp, args, i);
  }

  lemma {:induction false} NoDotNoValue(sp: Spec, args: seq<Arg>, i: nat)
    requires Valid(sp)
    ensures !sp.dot ==> FieldValue(sp.prec, args, i + Stars(sp.width)) == 0
  {}

  lemma {:induction false} NegativeCharDiffers(sp: Spec, args: seq<Arg>, i: nat)
    requires Defined(sp) && !CharIsRead(sp, args, i)
    ensures CodeText(sp, args, i) != IsoText(IsoConversion(sp, args, i))
  {
    hide Text, IsoText, Contains, IsoFlags, CodeText;
    var (c, k) := (CodeConversion(sp, args, i), IsoConversion(sp, args, i));
    CodeTextIs(sp, args, i);
    SameOperand(sp, args, i);
    assert !c.negative && k.negative;
    TextBounds(c, NTOA_SIZE);
    IsoSolid(k);
  }

  lemma {:induction false} LargeNumberDiffers(sp: Spec, args: seq<Arg>, i: nat)
    requires Defined(sp) && !(InRange(sp.width) && InRange(sp.prec))
    ensures CodeText(sp, args, i) != IsoText(IsoConversion(sp, args, i))
  {
    hide Text, IsoText, CodeText, CodeConversion, IsoConversion, Solid, IsoZeroed, InRange;
    var (c, k) := (CodeConversion(sp, args, i), IsoConversion(sp, args, i));
    CodeTextIs(sp, args, i);
    TextBounds(c, NTOA_SIZE);
    LargeNumbers(sp, args, i);
    IsoSolid(k);
    IsoNumberUnmarked(k);
    LongNumber(k);
    IsoTextLength(k);
  }

  lemma {:induction false} LargeNumbers(sp: Spec, args: seq<Arg>, i: nat)
    requires Defined(sp)
    ensures var (c, k) := (CodeConversion(sp, args, i), IsoConversion(sp, args, i));
      && (!InRange(sp.width) ==> c.width < WORD <= k.width)
      && (!InRange(sp.prec) ==> k.f.precision && k.prec >= WORD)
  {
    hide Contains, Evaluate, Operand, IsoOperand, IntegerFlags;
  }

  lemma {:induction false} LongNumber(k: Conversion)
    requires Called(k)
    ensures k.f.precision ==> |IsoNumber(k)| >= k.prec
  {}

  lemma {:induction false} BareDigits(k: Conversion)
    requires Called(k) && k.value != 0 && !k.f.precision
    ensures |Sign(k.negative, k.f)| + |IsoPrefix(k)| + |IsoDigits(k)| == BareCount(k)
    ensures Called(ZeroPrecision(k)) && IsoDigits(ZeroPrecision(k)) == IsoDigits(k) && IsoPrefix(ZeroPrecision(k)) == IsoPrefix(k)
  {
    hide Numeral;
    NumeralUnmarked(k.value, k.base, k.f.upper);
    var n := Numeral(k.value, k.base, k.f.upper);
    LeadingZero(n, 0);
    LeadingZero(n, 1);
  }

  /** A precision of zero in place of none. */
  lemma {:induction false} ZeroPrecisionIff(k: Conversion)
    requires Called(k) && !k.f.precision
    ensures Called(ZeroPrecision(k))
    ensures Text(ZeroPrecision(k), NTOA_SIZE) == IsoText(k)
       <==> k.value != 0 && (k.f.zeropad && !k.f.left ==> k.width <= BareCount(k)) && Conforms(ZeroPrecision(k), NTOA_SIZE)
  {
    hide Text, IsoText, IsoZeroed, IsoDigits, Conforms, Solid, BareCount;
    var z := ZeroPrecision(k);
    IsoSolid(k);
    if k.value == 0 {
      NothingPrinted(z);
      IsoNumberUnmarked(k);
      SomethingAsked(k);
    } else {
      BareDigits(k);
      MeetsIsoIff(z, NTOA_SIZE);
      if k.f.zeropad && !k.f.left && k.width > BareCount(k) {
        SolidOfBareNumber(z, NTOA_SIZE);
        MoreZeros(k);
      } else {
        SameIsoText(k);
      }
    }
  }

  lemma {:induction false} MoreZeros(k: Conversion)
    requires Called(k) && k.f.zeropad && !k.f.left && !k.f.precision
    requires k.width > |Sign(k.negative, k.f)| + |IsoPrefix(k)| + |IsoDigits(k)|
    ensures |IsoZeroed(k)| > |IsoDigits(k)|
  {}

  lemma {:induction false} SameIsoText(k: Conversion)
    requires Called(k) && !k.f.precision && Called(ZeroPrecision(k))
    requires IsoDigits(ZeroPrecision(k)) == IsoDigits(k) && IsoPrefix(ZeroPrecision(k)) == IsoPrefix(k)
    requires k.f.zeropad && !k.f.left ==> k.width <= |Sign(k.negative, k.f)| + |IsoPrefix(k)| + |IsoDigits(k)|
    ensures IsoText(ZeroPrecision(k)) == IsoText(k)
  {
    hide IsoDigits, IsoPrefix;
    assert IsoZeroed(k) == IsoDigits(k);
  }

  lemma {:induction false} NothingPrinted(k: Conversion)
    requires Called(k) && k.value == 0 && k.f.precision && k.prec == 0
    ensures Solid(Text(k, NTOA_SIZE)) == 0
  {
    var k' := k.(f := k.f.(hash := false));
    assert Text(k, NTOA_SIZE) == Text(k', NTOA_SIZE);
    hide Text, Solid, Padded, Signed, Zeroed, NaturalDigits, Mark;
    PlainText(k', NTOA_SIZE);
    PaddedDigits(k', NTOA_SIZE);
    ZeroedUnmarked(k', NTOA_SIZE);
    var s := Zeroed(NaturalDigits(k'.value, k'.base, k'.f, NTOA_SIZE), k'.negative, k'.prec, k'.width, k'.f, NTOA_SIZE);
    SolidPadded(s, k'.negative, DigitWidth(k'.negative, k'.width, k'.f), k'.f, NTOA_SIZE);
  }

  lemma {:induction false} SomethingAsked(k: Conversion)
    requires Called(k) && !k.f.precision
    ensures |IsoNumber(k)| >= 1
  {}

  lemma {:induction false} CodeMeetsIsoIff(sp: Spec, args: seq<Arg>, i: nat)
    requires Defined(sp)
    ensures CodeText(sp, args, i) == IsoText(IsoConversion(sp, args, i)) <==> Faithful(sp, args, i)
  {
    hide Text, IsoText, Conforms, CodeText, CodeConversion, IsoConversion, CharIsRead, InRange, BareCount;
    var k := IsoConversion(sp, args, i);
    if !CharIsRead(sp, args, i) {
      NegativeCharDiffers(sp, args, i);
    } else if !(InRange(sp.width) && InRange(sp.prec)) {
      LargeNumberDiffers(sp, args, i);
    } else {
      CodeTextIs(sp, args, i);
      SameConversion(sp, args, i);
      if NegativePrecision(sp, args, i) {
        NoPrecisionGiven(sp, args, i);
        ZeroPrecisionIff(k);
      } else {
        MeetsIsoIff(k, NTOA_SIZE);
      }
    }
  }

  lemma {:induction false} NoPrecisionGiven(sp: Spec, args: seq<Arg>, i: nat)
    requires Defined(sp) && NegativePrecision(sp, args, i)
    ensures !IsoConversion(sp, args, i).f.precision
  {}

  /** The piece of a format that a specification stands for, and the place behind it. */
  lemma {:induction false} PieceIsCodeText(format: string, pos: nat, args: seq<Arg>, i: nat, sp: Spec)
    requires Valid(sp) && Has(format, pos, "%" + SpecText(sp))
    ensures pos < |format| && Piece(format, Cursor(pos, From(args, i))).0 == CodeText(sp, args, i)
    ensures Piece(format, Cursor(pos, From(args, i))).1
         == Cursor(pos + 1 + |SpecText(sp)|, From(args, OperandAt(sp, i) + if sp.conv == '%' then 0 else 1))
  {
    hide SpecText, DirectiveAt, DirectiveText, From;
    HasParts(format, pos, "%", SpecText(sp));
    HasFirst(format, pos, "%");
    DirectiveIsRead(format, pos + 1, args, i, sp);
    FromIs(args, OperandAt(sp, i));
  }

  /** Wherever an integer conversion stands in a format and among the arguments, the formatter prints for it
      what the standard asks for exactly when specification and arguments are in the formatter's limits. */
  lemma {:induction false} IntegerMeetsIsoIff(format: string, pos: nat, args: seq<Arg>, i: nat, sp: Spec)
    requires Defined(sp) && Has(format, pos, "%" + SpecText(sp))
    ensures pos < |format|
    ensures Piece(format, Cursor(pos, From(args, i))).0 == IsoText(IsoConversion(sp, args, i)) <==> Faithful(sp, args, i)
  {
    hide SpecText, Piece, IsoText, Faithful, IsoConversion, From;
    PieceIsCodeText(format, pos, args, i, sp);
    CodeMeetsIsoIff(sp, args, i);
  }

  /** The letters of `x` are lower case and those of `X` upper case, in the formatter's limits or not. */
  lemma {:induction false} LettersInCase(format: string, pos: nat, args: seq<Arg>, i: nat, sp: Spec)
    requires Defined(sp) && (sp.conv == 'x' || sp.conv == 'X') && Has(format, pos, "%" + SpecText(sp))
    ensures pos < |format|
    ensures InCase(Piece(format, Cursor(pos, From(args, i))).0, sp.conv == 'X')
  {
    hide SpecText, Piece, From, InCase, Contains, Operand, FieldValue;
    PieceIsCodeText(format, pos, args, i, sp);
    CodeTextIs(sp, args, i);
    CodeFlags(sp, args, i);
    TextInCase(CodeConversion(sp, args, i), NTOA_SIZE);
  }

  // ----- Inputs that miss the standard's text

  /** A number without width, precision and flags is its numeral. */
  lemma {:induction false} BareText(k: Conversion)
    requires Called(k) && k.f == NoFlags && k.width == 0 && k.prec == 0 && |Numeral(k.value, k.base, false)| < 32
    ensures IsoText(k) == Sign(k.negative, k.f) + Numeral(k.value, k.base, false) && Text(k, NTOA_SIZE) == IsoText(k)
  {
    hide Text, IsoText, Numeral, IsoZeroed, IsoPrefix, Justify;
    MeetsIsoIff(k, NTOA_SIZE);
    BareZeroed(k);
    PlainText(k, NTOA_SIZE);
    NotJustified(Sign(k.negative, k.f) + Numeral(k.value, k.base, false));
  }

  lemma {:induction false} BareZeroed(k: Conversion)
    requires Called(k) && k.f == NoFlags && k.prec == 0
    ensures IsoZeroed(k) == Numeral(k.value, k.base, false)
  {
    var n := Numeral(k.value, k.base, false);
    assert k.value == 0 ==> n == "0";
    assert IsoNumber(k) == n;
  }

  lemma {:induction false} NotJustified(s: string)
    ensures Justify(s, 0, false) == s
  {}

  lemma {:induction false} SmallArguments()
    ensures AsSigned(-1, 8) == -1 && Unsigned(-1, 8) == 255 && AsSigned(-1, 32) == -1
    ensures AsSigned(0, 32) == 0 && Unsigned(0, 32) == 0
  {
    hide Power;
    WordPowers();
  }

  lemma {:induction false} SmallNumerals()
    ensures Numeral(0, 10, false) == "0" && Numeral(1, 10, false) == "1" && Numeral(255, 10, false) == "255"
  {
    assert Numeral(2, 10, false) == "2" && Numeral(25, 10, false) == "25";
  }

  /** `%hhd` of -1 prints 255. */
  lemma {:induction false} NegativeCharExample(sp: Spec, args: seq<Arg>)
    requires sp == Spec("", Absent, false, Absent, HH, 'd') && args == [Int(-1)]
    ensures "%" + SpecText(sp) == "%hhd" && Defined(sp)
    ensures CodeText(sp, args, 0) == "255" && IsoText(IsoConversion(sp, args, 0)) == "-1"
  {
    hide AsSigned, Unsigned, Contains, IntegerFlags, Fold, Numeral, Text, IsoText, CodeText, Evaluate;
    NothingContained();
    SmallArguments();
    CodeTextIs(sp, args, 0);
    CodeFlags(sp, args, 0);
    SmallNumerals();
    BareText(CodeConversion(sp, args, 0));
    BareText(IsoConversion(sp, args, 0));
    assert "" + "255" == "255" && "-" + "1" == "-1";
  }

  /** `%.*d` of 0 with a precision of -1 prints nothing. */
  lemma {:induction false} NegativePrecisionExample(sp: Spec, args: seq<Arg>)
    requires sp == Spec("", Absent, true, Star, Plain, 'd') && args == [Int(-1), Int(0)]
    ensures "%" + SpecText(sp) == "%.*d" && Defined(sp)
    ensures CodeText(sp, args, 0) == "" && IsoText(IsoConversion(sp, args, 0)) == "0"
  {
    hide AsSigned, Unsigned, Contains, IntegerFlags, Fold, Numeral, Text, IsoText, CodeText, Evaluate;
    NothingContained();
    SmallArguments();
    CodeTextIs(sp, args, 0);
    CodeFlags(sp, args, 0);
    SmallNumerals();
    BareText(IsoConversion(sp, args, 0));
    assert "" + "0" == "0";
    EmptyText(CodeConversion(sp, args, 0));
  }

  lemma {:induction false} EmptyText(k: Conversion)
    requires k == Conversion(0, false, 10, 0, 0, NoFlags.(precision := true))
    ensures Called(k) && Text(k, NTOA_SIZE) == ""
  {}

  /** `%#.0o` of 0 prints nothing. */
  lemma {:induction false} ZeroExample(sp: Spec, args: seq<Arg>)
    requires sp == Spec("#", Absent, true, Number("0"), Plain, 'o') && args == [Int(0)]
    ensures "%" + SpecText(sp) == "%#.0o" && Defined(sp)
    ensures CodeText(sp, args, 0) == "" && IsoText(IsoConversion(sp, args, 0)) == "0"
  {
    hide Text, IsoText, CodeText, CodeConversion, IsoConversion, Contains;
    OnlyHash();
    ZeroConversion(sp, args);
    SameConversion(sp, args, 0);
    CodeTextIs(sp, args, 0);
    OctalZeroExample(IsoConversion(sp, args, 0));
  }

  lemma {:induction false} ZeroConversion(sp: Spec, args: seq<Arg>)
    requires sp == Spec("#", Absent, true, Number("0"), Plain, 'o') && args == [Int(0)] && Defined(sp)
    ensures IsoConversion(sp, args, 0) == Conversion(0, false, 8, 0, 0, Hash.(precision := true))
    ensures InRange(sp.width) && InRange(sp.prec) && CharIsRead(sp, args, 0) && !NegativePrecision(sp, args, 0)
  {
    hide Unsigned, AsSigned, Evaluate, Valid, IsoFlags, IsoOperand;
    EvaluateDigit('0');
    ZeroFlags(sp, args);
    ZeroOperand(sp, args);
  }

  lemma {:induction false} ZeroFlags(sp: Spec, args: seq<Arg>)
    requires sp.flags == "#" && sp.width == Absent && HasPrecision(sp, args, 0) && sp.conv == 'o'
    ensures IsoFlags(sp, args, 0) == Flags(false, false, false, false, true, false, true)
  {
    hide Contains, HasPrecision;
    OnlyHash();
  }

  lemma {:induction false} ZeroOperand(sp: Spec, args: seq<Arg>)
    requires sp == Spec("#", Absent, true, Number("0"), Plain, 'o') && args == [Int(0)]
    ensures IsoOperand(sp, args, 0) == 0
  {
    hide Unsigned, AsSigned;
    SmallArguments();
  }

  lemma {:induction false} OnlyHash()
    ensures Contains("#", '#') && forall c :: c != '#' ==> !Contains("#", c)
  {
    assert "#"[0] == '#';
  }

  /** `%05.*d` of 42 with a precision of -1 loses its leading zeros. */
  lemma {:induction false} LostZerosExample(sp: Spec, args: seq<Arg>)
    requires sp == Spec("0", Number("5"), true, Star, Plain, 'd') && args == [Int(-1), Int(42)]
    ensures "%" + SpecText(sp) == "%05.*d" && Defined(sp)
    ensures CodeText(sp, args, 0) != IsoText(IsoConversion(sp, args, 0))
  {
    hide AsSigned, Contains, Numeral, CodeText, IsoText, Evaluate, Conforms, Fold;
    OnlyZero();
    EvaluateDigit('5');
    SmallArguments();
    assert AsSigned(42, 32) == 42 && |Numeral(42, 10, false)| == 2 by { FortyTwo(); }
    CodeMeetsIsoIff(sp, args, 0);
    var k := IsoConversion(sp, args, 0);
    assert k.f.zeropad && !k.f.left && k.width == 5 && BareCount(k) == 2;
  }

  lemma {:induction false} OnlyZero()
    ensures Contains("0", '0') && forall c :: c != '0' ==> !Contains("0", c)
  {
    assert "0"[0] == '0';
  }

  lemma {:induction false} FortyTwo()
    ensures AsSigned(42, 32) == 42 && |Numeral(42, 10, false)| == 2
  {
    hide Power;
    WordPowers();
    assert Numeral(4, 10, false) == "4";
  }
}
