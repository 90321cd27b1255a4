/**
 Conversion specifications by the grammar of section 7.21.6.1 of ISO/IEC 9899:2011: their text, their
 arguments by position, and how the formatter reads them.
 */
module FormatGrammar {
  import opened Arithmetic
  import opened IntegerText
  import opened Printf

  /** A width or a precision: absent, digits, or an argument. */
  datatype Field = Absent | Number(digits: string) | Star

  datatype Modifier = Plain | HH | H | L | LL | J | Z | T

  /** Flag characters in any order, a width, a precision if there is a dot, a length modifier, a conversion. */
  datatype Spec = Spec(flags: string, width: Field, dot: bool, prec: Field, modifier: Modifier, conv: char)

  predicate FlagChar(c: char) {
    c == '-' || c == '+' || c == ' ' || c == '#' || c == '0'
  }

  predicate IntegerChar(c: char) {
    c == 'd' || c == 'i' || c == 'u' || c == 'o' || c == 'x' || c == 'X' || c == 'b'
  }

  predicate ConversionChar(c: char) {
    IntegerChar(c) || c == 'c' || c == 's' || c == 'p' || c == '%'
  }

  predicate ValidNumber(field: Field) {
    field.Number? ==> field.digits != "" && forall i :: 0 <= i < |field.digits| ==> '0' <= field.digits[i] <= '9'
  }

  /** The specifications of the grammar; a width does not start with a zero, which would be a flag. */
  predicate Valid(sp: Spec) {
    && (forall i :: 0 <= i < |sp.flags| ==> FlagChar(sp.flags[i]))
    && ValidNumber(sp.width) && (sp.width.Number? ==> sp.width.digits[0] != '0')
    && ValidNumber(sp.prec) && (!sp.dot ==> sp.prec == Absent)
    && ConversionChar(sp.conv)
  }

  // ----- Arguments by position

  /** Argument `i`; a missing one counts as zero or as an empty string. */
  function ArgInt(args: seq<Arg>, i: nat): (v: int) {
    if i < |args| && args[i].Int? then args[i].value else 0
  }

  function ArgText(args: seq<Arg>, i: nat): (s: string) {
    if i < |args| && args[i].Str? then args[i].text else ""
  }

  /** The arguments from position `i` on. */
  function From(args: seq<Arg>, i: nat): (r: seq<Arg>) {
    if i <= |args| then args[i..] else []
  }

  lemma {:induction false} FromIs(args: seq<Arg>, i: nat)
    ensures NextInt(From(args, i)) == ArgInt(args, i) && NextText(From(args, i)) == ArgText(args, i)
    ensures Rest(From(args, i)) == From(args, i + 1)
  {}

  function Stars(field: Field): (n: nat) {
    if field.Star? then 1 else 0
  }

  /** The position of the converted argument of a specification whose arguments start at `i`. */
  function OperandAt(sp: Spec, i: nat): (k: nat) {
    i + Stars(sp.width) + Stars(sp.prec)
  }

  // ----- The text of a specification

  function FieldText(field: Field): (s: string) {
    match field case Absent => "" case Number(digits) => digits case Star => "*"
  }

  function ModifierText(m: Modifier): (s: string) {
    match m
    case Plain => "" case HH => "hh" case H => "h" case L => "l"
    case LL => "ll" case J => "j" case Z => "z" case T => "t"
  }

  function TailText(sp: Spec): (s: string) {
    ModifierText(sp.modifier) + [sp.conv]
  }

  function DotText(sp: Spec): (s: string) {
    if sp.dot then "." + FieldText(sp.prec) else ""
  }

  /** A specification as it is written in a format, behind the percent sign. */
  function SpecText(sp: Spec): (s: string) {
    sp.flags + (FieldText(sp.width) + (DotText(sp) + TailText(sp)))
  }

  // ----- How the formatter reads it

  /** The number that a field stands for, its argument being at position `i`. */
  function FieldValue(field: Field, args: seq<Arg>, i: nat): (v: int) {
    match field
    case Absent => 0
    case Number(digits) => Evaluate(digits, 10)
    case Star => AsSigned(ArgInt(args, i), 32)
  }

  function LengthOf(m: Modifier): (l: Length) {
    match m
    case Plain => Default case HH => Char case H => Short case L => Long
    case LL => LongLong case J => LongLong case Z => Long case T => Long
  }

  function Fold(s: string, f: Flags): (f': Flags) {
    if s == "" then f else Fold(s[1..], FlagOf(s[0], f))
  }

  function Abs(v: int): (n: nat) {
    if v < 0 then -v else v
  }

  /** Numbers wrap around, a negative width means left justification, a negative precision means zero. */
  function CodeDirective(sp: Spec, args: seq<Arg>, i: nat): (d: Directive) {
    var w := FieldValue(sp.width, args, i);
    var p := FieldValue(sp.prec, args, i + Stars(sp.width));
    var f := Fold(sp.flags, NoFlags);
    Directive(f.(left := f.left || w < 0, precision := sp.dot),
              Abs(w) % WORD, if p > 0 then p % WORD else 0, LengthOf(sp.modifier), sp.conv)
  }

  lemma {:induction false} FlagsAreRead(format: string, pos: nat, s: string, f: Flags)
    requires Has(format, pos, s) && (forall i :: 0 <= i < |s| ==> FlagChar(s[i])) && !IsFlag(At(format, pos + |s|))
    ensures FlagsAt(format, pos, f) == (Fold(s, f), pos + |s|)
    decreases |s|
  {
    hide At, FlagOf;
    if s == "" {
      NoFlagIsRead(format, pos, f);
    } else {
      HasFirst(format, pos, s);
      OneFlagIsRead(format, pos, f);
      FlagsAreRead(format, pos + 1, s[1..], FlagOf(s[0], f));
    }
  }

  lemma {:induction false} NoFlagIsRead(format: string, pos: nat, f: Flags)
    requires !IsFlag(At(format, pos))
    ensures FlagsAt(format, pos, f) == (f, pos)
  {}

  lemma {:induction false} OneFlagIsRead(format: string, pos: nat, f: Flags)
    requires IsFlag(At(format, pos))
    ensures FlagsAt(format, pos, f) == FlagsAt(format, pos + 1, FlagOf(At(format, pos), f))
  {}

  lemma {:induction false} FlagOfIs(c: char, f: Flags)
    ensures FlagOf(c, f) == Flags(f.zeropad || c == '0', f.left || c == '-', f.plus || c == '+', f.space || c == ' ',
                                  f.hash || c == '#', f.upper, f.precision)
  {}

  /** What is left of the flags: no precision, no upper case. */
  lemma {:induction false} FoldKeeps(s: string, f: Flags)
    ensures Fold(s, f).precision == f.precision && Fold(s, f).upper == f.upper
  {
    hide FlagOf;
    if s != "" {
      FlagOfIs(s[0], f);
      FoldKeeps(s[1..], FlagOf(s[0], f));
    }
  }

  predicate Contains(s: string, c: char) {
    exists i :: 0 <= i < |s| && s[i] == c
  }

  lemma {:induction false} ContainsFirst(s: string, c: char)
    requires s != ""
    ensures Contains(s, c) <==> s[0] == c || Contains(s[1..], c)
  {
    if Contains(s[1..], c) {
      var i :| 0 <= i < |s[1..]| && s[1..][i] == c;
      assert s[i + 1] == c;
    }
    if Contains(s, c) && s[0] != c {
      var i :| 0 <= i < |s| && s[i] == c;
      assert s[1..][i - 1] == c;
    }
  }

  /** The formatter sees exactly the flags that are there. */
  lemma {:induction false} FoldContains(s: string, f: Flags)
    ensures var g := Fold(s, f);
      && (g.zeropad <==> f.zeropad || Contains(s, '0')) && (g.left <==> f.left || Contains(s, '-'))
      && (g.plus <==> f.plus || Contains(s, '+')) && (g.space <==> f.space || Contains(s, ' '))
      && (g.hash <==> f.hash || Contains(s, '#'))
  {
    hide Contains, FlagOf;
    if s == "" {
      NothingContained();
    } else {
      FlagOfIs(s[0], f);
      FoldContains(s[1..], FlagOf(s[0], f));
      ContainsFirst(s, '0');
      ContainsFirst(s, '-');
      ContainsFirst(s, '+');
      ContainsFirst(s, ' ');
      ContainsFirst(s, '#');
    }
  }

  lemma {:induction false} NothingContained()
    ensures forall c :: !Contains("", c)
  {}

  /** A character that cannot belong to a number or to the field before it. */
  predicate EndsField(c: char) {
    !IsFlag(c) && !IsDigit(c) && c != '*'
  }

  lemma {:induction false} NumberFieldIsRead(format: string, pos: nat, digits: string)
    requires Has(format, pos, digits) && ValidNumber(Number(digits)) && !IsDigit(At(format, pos + |digits|))
    ensures IsDigit(At(format, pos)) && At(format, pos) == digits[0]
    ensures NumberAt(format, pos, 0) == (Evaluate(digits, 10) % WORD, pos + |digits|)
  {
    hide NumberAt, Evaluate, Power;
    HasFirst(format, pos, digits);
    NumberIsRead(format, pos, digits, 0);
    assert 0 * Power(10, |digits|) == 0;
  }

  lemma {:induction false} IntRange(v: int)
    ensures -0x8000_0000 <= AsSigned(v, 32) < 0x8000_0000
  {
    WordPowers();
  }

  lemma {:induction false} WordPowers()
    ensures Power(2, 7) == 0x80 && Power(2, 8) == 0x100
    ensures Power(2, 31) == 0x8000_0000 && Power(2, 32) == WORD
  {
    assert Power(2, 4) == 16;
    assert Power(2, 12) == 0x1000;
    assert Power(2, 16) == 0x1_0000;
    assert Power(2, 20) == 0x10_0000;
    assert Power(2, 24) == 0x100_0000;
    assert Power(2, 28) == 0x1000_0000;
  }

  lemma {:induction false} StarIsRead(format: string, pos: nat)
    requires Has(format, pos, "*")
    ensures At(format, pos) == '*' && !IsDigit(At(format, pos))
  {
    HasFirst(format, pos, "*");
  }

  /** The position behind a field's argument. */
  lemma {:induction false} ArgumentIsTaken(field: Field, args: seq<Arg>, i: nat)
    ensures field.Star? ==> NextInt(From(args, i)) == ArgInt(args, i) && Rest(From(args, i)) == From(args, i + Stars(field))
    ensures !field.Star? ==> From(args, i) == From(args, i + Stars(field))
  {
    FromIs(args, i);
  }

  lemma {:induction false} WidthIsRead(format: string, pos: nat, args: seq<Arg>, i: nat, field: Field, f: Flags)
    requires ValidNumber(field) && Has(format, pos, FieldText(field))
    requires EndsField(At(format, pos + |FieldText(field)|))
    ensures var w := FieldValue(field, args, i);
      WidthAt(format, Cursor(pos, From(args, i)), f)
      == (f.(left := f.left || w < 0), Abs(w) % WORD, Cursor(pos + |FieldText(field)|, From(args, i + Stars(field))))
  {
    hide NumberAt, Evaluate, AsSigned, At, Has, From, NextInt, ArgInt, Rest;
    ArgumentIsTaken(field, args, i);
    match field
    case Absent =>
    case Number(digits) => NumberFieldIsRead(format, pos, digits);
    case Star =>
      StarIsRead(format, pos);
      IntRange(ArgInt(args, i));
  }

  lemma {:induction false} PrecisionIsRead(format: string, pos: nat, args: seq<Arg>, i: nat, sp: Spec, f: Flags)
    requires Valid(sp) && Has(format, pos, DotText(sp)) && !f.precision
    requires EndsField(At(format, pos + |DotText(sp)|)) && At(format, pos + |DotText(sp)|) != '.'
    ensures var p := FieldValue(sp.prec, args, i);
      PrecisionAt(format, Cursor(pos, From(args, i)), f)
      == (f.(precision := sp.dot), if p > 0 then p % WORD else 0,
          Cursor(pos + |DotText(sp)|, From(args, i + Stars(sp.prec))))
    ensures EndsField(At(format, pos))
  {
    hide At, Has, PrecisionAt, FieldValue, From;
    if sp.dot {
      DotIsRead(format, pos, sp.prec);
      GivenPrecisionIsRead(format, pos, args, i, sp.prec, f);
    } else {
      NoPrecisionIsRead(format, Cursor(pos, From(args, i)), f);
      AbsentIsZero(args, i);
    }
  }

  lemma {:induction false} AbsentIsZero(args: seq<Arg>, i: nat)
    ensures FieldValue(Absent, args, i) == 0
  {}

  lemma {:induction false} DotIsRead(format: string, pos: nat, field: Field)
    requires Has(format, pos, "." + FieldText(field))
    ensures At(format, pos) == '.' && Has(format, pos + 1, FieldText(field))
  {
    HasParts(format, pos, ".", FieldText(field));
    HasFirst(format, pos, ".");
  }

  lemma {:induction false} NoPrecisionIsRead(format: string, cur: Cursor, f: Flags)
    requires At(format, cur.pos) != '.'
    ensures PrecisionAt(format, cur, f) == (f, 0, cur)
  {}

  lemma {:induction false} GivenPrecisionIsRead(format: string, pos: nat, args: seq<Arg>, i: nat, field: Field, f: Flags)
    requires ValidNumber(field) && At(format, pos) == '.' && Has(format, pos + 1, FieldText(field))
    requires EndsField(At(format, pos + 1 + |FieldText(field)|))
    ensures var p := FieldValue(field, args, i);
      PrecisionAt(format, Cursor(pos, From(args, i)), f)
      == (f.(precision := true), if p > 0 then p % WORD else 0,
          Cursor(pos + 1 + |FieldText(field)|, From(args, i + Stars(field))))
  {
    hide NumberAt, Evaluate, AsSigned, At, Has, From, NextInt, ArgInt, Rest;
    ArgumentIsTaken(field, args, i);
    match field
    case Absent =>
    case Number(digits) => NumberFieldIsRead(format, pos + 1, digits);
    case Star =>
      StarIsRead(format, pos + 1);
      IntRange(ArgInt(args, i));
  }

  lemma {:induction false} TailIsRead(format: string, pos: nat, sp: Spec)
    requires Valid(sp) && Has(format, pos, TailText(sp))
    ensures LengthAt(format, pos) == (LengthOf(sp.modifier), pos + |ModifierText(sp.modifier)|)
    ensures At(format, pos + |ModifierText(sp.modifier)|) == sp.conv
    ensures EndsField(At(format, pos)) && At(format, pos) != '.'
  {
    var m := ModifierText(sp.modifier);
    hide At, LengthAt;
    HasParts(format, pos, m, [sp.conv]);
    HasFirst(format, pos + |m|, [sp.conv]);
    if m == "" {
      assert pos + |m| == pos;
    } else {
      HasFirst(format, pos, m);
      if |m| == 2 {
        HasFirst(format, pos + 1, m[1..]);
      }
    }
    LengthIsRead(format, pos, sp.modifier);
  }

  lemma {:induction false} LengthIsRead(format: string, pos: nat, m: Modifier)
    requires var t := ModifierText(m);
      (|t| > 0 ==> At(format, pos) == t[0]) && (|t| > 1 ==> At(format, pos + 1) == t[1])
    requires ConversionChar(At(format, pos + |ModifierText(m)|))
    ensures LengthAt(format, pos) == (LengthOf(m), pos + |ModifierText(m)|)
  {
    hide At;
  }

  /** Every specification is read as described, wherever it stands in a format and among the arguments. */
  lemma {:induction false} DirectiveIsRead(format: string, pos: nat, args: seq<Arg>, i: nat, sp: Spec)
    requires Valid(sp) && Has(format, pos, SpecText(sp))
    ensures DirectiveAt(format, Cursor(pos, From(args, i)))
         == (CodeDirective(sp, args, i), Cursor(pos + |SpecText(sp)| - 1, From(args, OperandAt(sp, i))))
  {
    hide FlagsAt, WidthAt, PrecisionAt, LengthAt, At, IsFlag, Fold, DotText, TailText, FieldText, FieldValue, Has, From;
    var t := DotText(sp) + TailText(sp);
    HasParts(format, pos, sp.flags, FieldText(sp.width) + t);
    var p1 := pos + |sp.flags|;
    HasParts(format, p1, FieldText(sp.width), t);
    var p2 := p1 + |FieldText(sp.width)|;
    HasParts(format, p2, DotText(sp), TailText(sp));
    var p3 := p2 + |DotText(sp)|;
    TailIsRead(format, p3, sp);
    var f := Fold(sp.flags, NoFlags);
    FoldKeeps(sp.flags, NoFlags);
    var w := FieldValue(sp.width, args, i);
    PrecisionIsRead(format, p2, args, i + Stars(sp.width), sp, f.(left := f.left || w < 0));
    WidthIsRead(format, p1, args, i, sp.width, f);
    WidthStart(format, p1, sp);
    FlagsAreRead(format, pos, sp.flags, NoFlags);
    TailLength(sp);
  }

  lemma {:induction false} WidthStart(format: string, pos: nat, sp: Spec)
    requires Valid(sp) && Has(format, pos, FieldText(sp.width)) && EndsField(At(format, pos + |FieldText(sp.width)|))
    ensures !IsFlag(At(format, pos))
  {
    if sp.width != Absent {
      HasFirst(format, pos, FieldText(sp.width));
    }
  }

  lemma {:induction false} TailLength(sp: Spec)
    ensures |TailText(sp)| == |ModifierText(sp.modifier)| + 1
  {}
}
