/**
 Whole formats: a format is a list of literal texts and conversion specifications, and its output is
 the list of their texts.  Each specification takes its arguments from the position behind those of
 the items before it, one for each `*` and one for the conversion, none for a percent sign.
 */
module IsoOutput {
  import opened Arithmetic
  import opened IntegerText
  import opened IsoInteger
  import opened Printf
  import opened FormatGrammar
  import opened IsoFormat

  datatype Item = Literal(text: string) | Convert(sp: Spec)

  /** No percent sign, and no terminator. */
  predicate Literally(text: string) {
    forall i :: 0 <= i < |text| ==> text[i] != '%' && text[i] != '\0'
  }

  ghost predicate ValidItem(item: Item) {
    match item
    case Literal(text) => Literally(text)
    case Convert(sp) => Valid(sp)
  }

  ghost predicate ValidItems(items: seq<Item>) {
    forall k :: 0 <= k < |items| ==> ValidItem(items[k])
  }

  function ItemText(item: Item): (s: string) {
    match item case Literal(text) => text case Convert(sp) => "%" + SpecText(sp)
  }

  /** The format. */
  function Written(items: seq<Item>): (s: string) {
    if items == [] then "" else ItemText(items[0]) + Written(items[1..])
  }

  /** How many arguments an item takes. */
  function ArgCount(item: Item): (n: nat) {
    match item
    case Literal(_) => 0
    case Convert(sp) =>
      (if sp.width == Star then 1 else 0) + (if sp.prec == Star then 1 else 0) + (if sp.conv == '%' then 0 else 1)
  }

  // ----- What the formatter prints

  function CodeItem(item: Item, args: seq<Arg>, i: nat): (s: string) {
    match item case Literal(text) => text case Convert(sp) => CodeText(sp, args, i)
  }

  /** The texts of the items, whose arguments start at position `i`. */
  function CodeItems(items: seq<Item>, args: seq<Arg>, i: nat): (s: string) {
    if items == [] then "" else CodeItem(items[0], args, i) + CodeItems(items[1..], args, i + ArgCount(items[0]))
  }

  lemma {:induction false} LiteralIsCopied(format: string, cur: Cursor, text: string)
    requires Has(format, cur.pos, text) && Literally(text)
    ensures Formatted(format, cur) == text + Formatted(format, cur.(pos := cur.pos + |text|))
    ensures Complete(format, cur) <==> Complete(format, cur.(pos := cur.pos + |text|))
    decreases |text|
  {
    hide Formatted, Complete, Has, At;
    if text != "" {
      var next := cur.(pos := cur.pos + 1);
      HasFirst(format, cur.pos, text);
      CharIsCopied(format, cur);
      LiteralIsCopied(format, next, text[1..]);
      assert [text[0]] + (text[1..] + Formatted(format, next.(pos := next.pos + |text[1..]|)))
          == text + Formatted(format, next.(pos := next.pos + |text[1..]|));
    } else {
      assert "" + Formatted(format, cur) == Formatted(format, cur);
    }
  }

  lemma {:induction false} CharIsCopied(format: string, cur: Cursor)
    requires At(format, cur.pos) != '%' && At(format, cur.pos) != '\0'
    ensures Formatted(format, cur) == [At(format, cur.pos)] + Formatted(format, cur.(pos := cur.pos + 1))
    ensures Complete(format, cur) <==> Complete(format, cur.(pos := cur.pos + 1))
  {
    hide DirectiveAt, DirectiveText, TakesArgument;
  }

  /** One step of the main loop. */
  lemma {:induction false} FormattedAtPiece(format: string, cur: Cursor)
    requires cur.pos < |format|
    ensures Formatted(format, cur) == Piece(format, cur).0 + Formatted(format, Piece(format, cur).1)
  {
    hide DirectiveAt, DirectiveText, TakesArgument;
  }

  lemma {:induction false} CompleteAtSpec(format: string, pos: nat, args: seq<Arg>, i: nat, sp: Spec)
    requires Valid(sp) && Has(format, pos, "%" + SpecText(sp))
    ensures pos < |format|
    ensures Complete(format, Cursor(pos, From(args, i))) <==> Complete(format, Piece(format, Cursor(pos, From(args, i))).1)
  {
    hide SpecText, DirectiveAt, DirectiveText, TakesArgument, From, CodeDirective;
    HasParts(format, pos, "%", SpecText(sp));
    HasFirst(format, pos, "%");
    DirectiveIsRead(format, pos + 1, args, i, sp);
  }

  lemma {:induction false} FormattedFrom(format: string, pos: nat, items: seq<Item>, args: seq<Arg>, i: nat)
    requires ValidItems(items) && pos <= |format| && format[pos..] == Written(items)
    ensures Formatted(format, Cursor(pos, From(args, i))) == CodeItems(items, args, i)
    ensures Complete(format, Cursor(pos, From(args, i)))
    decreases |items|
  {
    hide SpecText, Piece, From, CodeText, Formatted, Complete, Written, Has, CodeItem, ItemText, ArgCount;
    if items == [] {
      EndsHere(format, Cursor(pos, From(args, i)), items);
    } else {
      WrittenSplits(format, pos, items);
      FormattedFrom(format, pos + |ItemText(items[0])|, items[1..], args, i + ArgCount(items[0]));
      ItemIsPrinted(format, pos, items[0], args, i);
    }
  }

  lemma {:induction false} EndsHere(format: string, cur: Cursor, items: seq<Item>)
    requires items == [] && cur.pos <= |format| && format[cur.pos..] == Written(items)
    ensures Formatted(format, cur) == "" && Complete(format, cur)
  {}

  /** One item is printed, and the rest goes on behind it and behind its arguments. */
  lemma {:induction false} ItemIsPrinted(format: string, pos: nat, item: Item, args: seq<Arg>, i: nat)
    requires ValidItem(item) && Has(format, pos, ItemText(item))
    ensures var (cur, next) := (Cursor(pos, From(args, i)),
                                Cursor(pos + |ItemText(item)|, From(args, i + ArgCount(item))));
      && Formatted(format, cur) == CodeItem(item, args, i) + Formatted(format, next)
      && (Complete(format, cur) <==> Complete(format, next))
  {
    hide SpecText, Piece, From, CodeText, Formatted, Complete, Has;
    var cur := Cursor(pos, From(args, i));
    match item {
      case Literal(text) => LiteralIsCopied(format, cur, text);
      case Convert(sp) =>
        PieceIsCodeText(format, pos, args, i, sp);
        CompleteAtSpec(format, pos, args, i, sp);
        FormattedAtPiece(format, cur);
    }
  }

  lemma {:induction false} WrittenSplits(format: string, pos: nat, items: seq<Item>)
    requires pos <= |format| && format[pos..] == Written(items) && items != []
    ensures var t := ItemText(items[0]);
      pos + |t| <= |format| && Has(format, pos, t) && format[pos + |t|..] == Written(items[1..])
  {
    hide ItemText;
    var t := ItemText(items[0]);
    assert format[pos..] == t + Written(items[1..]);
    assert format[pos..pos + |t|] == format[pos..][..|t|];
    assert format[pos + |t|..] == format[pos..][|t|..];
  }

  /** The formatter prints the texts of the items one after the other, each with its own arguments. */
  lemma {:induction false} FormattedIsItems(items: seq<Item>, args: seq<Arg>)
    requires ValidItems(items)
    ensures Formatted(Written(items), Cursor(0, args)) == CodeItems(items, args, 0)
    ensures Complete(Written(items), Cursor(0, args))
  {
    hide Formatted, Complete, CodeItems, Written;
    var format := Written(items);
    assert format[0..] == format && From(args, 0) == args;
    FormattedFrom(format, 0, items, args, 0);
  }

  // ----- What the standard asks for in the other conversions

  function IsoWidth(sp: Spec, args: seq<Arg>, i: nat): (w: nat) {
    Abs(FieldValue(sp.width, args, i))
  }

  predicate IsoLeft(sp: Spec, args: seq<Arg>, i: nat) {
    Contains(sp.flags, '-') || FieldValue(sp.width, args, i) < 0
  }

  lemma {:induction false} CodeField(sp: Spec, args: seq<Arg>, i: nat)
    ensures var d := CodeDirective(sp, args, i);
      && d.flags.left == IsoLeft(sp, args, i) && d.width == IsoWidth(sp, args, i) % WORD
      && d.flags.precision == sp.dot && d.conv == sp.conv
    ensures InRange(sp.width) ==> IsoWidth(sp, args, i) < WORD
  {
    hide Contains, Fold, FieldValue;
    FoldContains(sp.flags, NoFlags);
    FieldRange(sp.width, args, i);
  }

  /** A width that wraps around makes the text shorter. */
  lemma {:induction false} WidthIff(s: string, w: nat, left: bool)
    ensures Justify(s, w % WORD, left) == Justified(s, w, left) <==> w < WORD || w <= |s|
  {
    if w < WORD {
      assert w % WORD == w;
    } else {
      assert w % WORD < WORD;
      if w <= |s| {
        assert Justify(s, w % WORD, left) == s == Justify(s, w, left);
      }
    }
  }

  /** `%c`: the argument as a character, justified in its field. */
  function CharText(sp: Spec, args: seq<Arg>, i: nat): (s: string) {
    Justified([(ArgInt(args, OperandAt(sp, i)) % 256) as char], IsoWidth(sp, args, i), IsoLeft(sp, args, i))
  }

  lemma {:induction false} CharIff(sp: Spec, args: seq<Arg>, i: nat)
    requires Valid(sp) && sp.conv == 'c'
    ensures CodeText(sp, args, i) == CharText(sp, args, i) <==> InRange(sp.width)
  {
    hide Justify, Justified, IsoLeft, FieldValue, CodeDirective, ArgInt, From, InRange;
    FromIs(args, OperandAt(sp, i));
    CodeField(sp, args, i);
    WidthIff([CharOf(ArgInt(args, OperandAt(sp, i)))], IsoWidth(sp, args, i), IsoLeft(sp, args, i));
    LargeWidth(sp, args, i);
  }

  lemma {:induction false} LargeWidth(sp: Spec, args: seq<Arg>, i: nat)
    ensures !InRange(sp.width) ==> IsoWidth(sp, args, i) >= WORD
  {
    hide Evaluate;
  }

  /** `%s`: the argument, cut off at the precision if there is one. */
  function Cut(sp: Spec, args: seq<Arg>, i: nat): (s: string) {
    var (s, p) := (ArgText(args, OperandAt(sp, i)), FieldValue(sp.prec, args, i + Stars(sp.width)));
    if HasPrecision(sp, args, i) && p < |s| then s[..p] else s
  }

  function StringText(sp: Spec, args: seq<Arg>, i: nat): (s: string) {
    Justified(Cut(sp, args, i), IsoWidth(sp, args, i), IsoLeft(sp, args, i))
  }

  /** What the formatter cuts off. */
  function CodeCut(sp: Spec, args: seq<Arg>, i: nat): (s: string) {
    var (s, p) := (ArgText(args, OperandAt(sp, i)), CodeDirective(sp, args, i).prec);
    if sp.dot && p < |s| then s[..p] else s
  }

  /** The formatter cuts off a negative precision at nothing, and a large one modulo the word size. */
  predicate SameCut(sp: Spec, args: seq<Arg>, i: nat) {
    var (n, p) := (|ArgText(args, OperandAt(sp, i))|, FieldValue(sp.prec, args, i + Stars(sp.width)));
    sp.dot ==> if p < 0 then n == 0 else Min(p % WORD, n) == Min(p, n)
  }

  lemma {:induction false} CutsAgreeIff(sp: Spec, args: seq<Arg>, i: nat)
    requires Valid(sp)
    ensures |CodeCut(sp, args, i)| == |Cut(sp, args, i)| <==> SameCut(sp, args, i)
    ensures SameCut(sp, args, i) ==> CodeCut(sp, args, i) == Cut(sp, args, i)
  {
    hide ArgText, FieldValue, Fold;
  }

  predicate StringFaithful(sp: Spec, args: seq<Arg>, i: nat) {
    SameCut(sp, args, i) && (IsoWidth(sp, args, i) < WORD || IsoWidth(sp, args, i) <= |Cut(sp, args, i)|)
  }

  ghost predicate NoBlanks(s: string) {
    forall i :: 0 <= i < |s| ==> s[i] != ' '
  }

  /** Texts of different length without blanks differ in any field. */
  lemma {:induction false} FieldsDiffer(s: string, t: string, v: nat, w: nat, left: bool)
    requires NoBlanks(s) && NoBlanks(t) && |s| < |t|
    ensures Justify(s, v, left) != Justify(t, w, left)
  {
    var (a, b) := (Justify(s, v, left), Justify(t, w, left));
    if |a| == |b| {
      if left {
        assert b[|s|] == t[|s|];
      } else {
        assert b[|b| - |t|] == t[0] && a[|a| - |t|] == ' ';
      }
    }
  }

  lemma {:induction false} StringCodeIs(sp: Spec, args: seq<Arg>, i: nat)
    requires Valid(sp) && sp.conv == 's'
    ensures CodeText(sp, args, i) == Justify(CodeCut(sp, args, i), IsoWidth(sp, args, i) % WORD, IsoLeft(sp, args, i))
  {
    hide Justify, IsoLeft, FieldValue, CodeDirective, ArgText, From;
    FromIs(args, OperandAt(sp, i));
    CodeField(sp, args, i);
  }

  /** A string conversion prints what the standard asks for under a stated condition, and for a string
      without blanks under no other. */
  lemma {:induction false} StringIff(sp: Spec, args: seq<Arg>, i: nat)
    requires Valid(sp) && sp.conv == 's'
    ensures StringFaithful(sp, args, i) ==> CodeText(sp, args, i) == StringText(sp, args, i)
    ensures NoBlanks(ArgText(args, OperandAt(sp, i))) ==>
      (CodeText(sp, args, i) == StringText(sp, args, i) <==> StringFaithful(sp, args, i))
  {
    hide Justify, Justified, IsoLeft, IsoWidth, FieldValue, CodeText, SameCut;
    StringCodeIs(sp, args, i);
    CutsAgreeIff(sp, args, i);
    var (s, t, w, left) := (CodeCut(sp, args, i), Cut(sp, args, i), IsoWidth(sp, args, i), IsoLeft(sp, args, i));
    if |s| == |t| {
      WidthIff(s, w, left);
    } else if NoBlanks(ArgText(args, OperandAt(sp, i))) {
      if |s| < |t| {
        FieldsDiffer(s, t, w % WORD, w, left);
      } else {
        FieldsDiffer(t, s, w, w % WORD, left);
      }
    }
  }

  /** `%p` without flags and precision: eight upper-case hexadecimal digits, whatever the width. */
  function PointerText(sp: Spec, args: seq<Arg>, i: nat): (s: string) {
    WithZeros(IsoNumeral(ArgInt(args, OperandAt(sp, i)) % 0x1_0000_0000, 16, true), 8)
  }

  predicate PlainPointer(sp: Spec, args: seq<Arg>, i: nat) {
    sp.flags == "" && !sp.dot && FieldValue(sp.width, args, i) >= 0
  }

  lemma {:induction false} PointerPrints(sp: Spec, args: seq<Arg>, i: nat)
    requires Valid(sp) && sp.conv == 'p' && PlainPointer(sp, args, i)
    ensures CodeText(sp, args, i) == PointerText(sp, args, i) && |PointerText(sp, args, i)| == 8
  {
    hide FieldValue, Numeral, IsoNumeral, ConversionText, ArgInt, From, Power, WithZeros;
    var v := ArgInt(args, OperandAt(sp, i)) % 0x1_0000_0000;
    FromIs(args, OperandAt(sp, i));
    WordPowers();
    AbsentIsZero(args, i + Stars(sp.width));
    HexWord(v);
    PointerIs(v);
  }

  lemma {:induction false} HexWord(v: nat)
    requires v < WORD
    ensures |Numeral(v, 16, true)| <= 8
  {
    hide Numeral;
    assert Power(16, 4) == 0x1_0000;
    assert Power(16, 8) == WORD;
    if |Numeral(v, 16, true)| > 8 {
      LongNumeral(v, 16, true, 8);
    }
  }

  lemma {:induction false} PointerIs(v: nat)
    requires v < WORD && |Numeral(v, 16, true)| <= 8
    ensures ConversionText(v, false, 16, 0, 8, NoFlags.(zeropad := true, upper := true), NTOA_SIZE)
         == WithZeros(IsoNumeral(v, 16, true), 8)
  {
    hide Numeral, IsoNumeral, ConversionText, IsoText;
    var k := Conversion(v, false, 16, 0, 8, NoFlags.(zeropad := true, upper := true));
    MeetsIsoIff(k, NTOA_SIZE);
    PlainText(k, NTOA_SIZE);
    EightDigits(k);
  }

  lemma {:induction false} EightDigits(k: Conversion)
    requires k == Conversion(k.value, false, 16, 0, 8, NoFlags.(zeropad := true, upper := true))
    requires Called(k) && |Numeral(k.value, 16, true)| <= 8
    ensures Justify(Sign(k.negative, k.f) + IsoZeroed(k), 8, false) == WithZeros(IsoNumeral(k.value, 16, true), 8)
  {
    hide Numeral;
    assert k.value == 0 ==> IsoNumeral(0, 16, true) == "0";
    var n := IsoNumeral(k.value, 16, true);
    assert IsoNumber(k) == n by {
      if k.value != 0 {
        LeadingZero(n, 1);
      }
    }
    assert IsoZeroed(k) == WithZeros(n, 8);
  }

  // ----- Whole formats and the standard

  /** The item prints what the standard asks for. */
  predicate FaithfulItem(item: Item, args: seq<Arg>, i: nat) {
    match item
    case Literal(_) => true
    case Convert(sp) =>
      if IntegerChar(sp.conv) then Defined(sp) && Faithful(sp, args, i)
      else if sp.conv == 'c' then InRange(sp.width)
      else if sp.conv == 's' then StringFaithful(sp, args, i)
      else if sp.conv == 'p' then PlainPointer(sp, args, i)
      else true
  }

  function IsoItem(item: Item, args: seq<Arg>, i: nat): (s: string)
    requires FaithfulItem(item, args, i)
  {
    match item
    case Literal(text) => text
    case Convert(sp) =>
      if IntegerChar(sp.conv) then IsoText(IsoConversion(sp, args, i))
      else if sp.conv == 'c' then CharText(sp, args, i)
      else if sp.conv == 's' then StringText(sp, args, i)
      else if sp.conv == 'p' then PointerText(sp, args, i)
      else "%"
  }

  predicate FaithfulItems(items: seq<Item>, args: seq<Arg>, i: nat) {
    items == [] || (FaithfulItem(items[0], args, i) && FaithfulItems(items[1..], args, i + ArgCount(items[0])))
  }

  function IsoItems(items: seq<Item>, args: seq<Arg>, i: nat): (s: string)
    requires FaithfulItems(items, args, i)
  {
    if items == [] then "" else IsoItem(items[0], args, i) + IsoItems(items[1..], args, i + ArgCount(items[0]))
  }

  lemma {:induction false} ItemMeetsIso(item: Item, args: seq<Arg>, i: nat)
    requires ValidItem(item) && FaithfulItem(item, args, i)
    ensures CodeItem(item, args, i) == IsoItem(item, args, i)
  {
    hide CodeText, IsoText, CharText, StringText, PointerText, Faithful, StringFaithful, PlainPointer, InRange;
    if item.Convert? {
      var sp := item.sp;
      if IntegerChar(sp.conv) {
        CodeMeetsIsoIff(sp, args, i);
      } else if sp.conv == 'c' {
        CharIff(sp, args, i);
      } else if sp.conv == 's' {
        StringIff(sp, args, i);
      } else if sp.conv == 'p' {
        PointerPrints(sp, args, i);
      } else {
        PercentPrints(sp, args, i);
      }
    }
  }

  lemma {:induction false} PercentPrints(sp: Spec, args: seq<Arg>, i: nat)
    requires sp.conv == '%'
    ensures CodeText(sp, args, i) == "%"
  {
    hide FieldValue, Fold;
  }

  lemma {:induction false} ItemsMeetIso(items: seq<Item>, args: seq<Arg>, i: nat)
    requires ValidItems(items) && FaithfulItems(items, args, i)
    ensures CodeItems(items, args, i) == IsoItems(items, args, i)
  {
    hide CodeItem, IsoItem, FaithfulItem, ValidItem, ArgCount;
    if items != [] {
      ItemMeetsIso(items[0], args, i);
      ItemsMeetIso(items[1..], args, i + ArgCount(items[0]));
    }
  }

  /** A format whose items are in the formatter's limits prints the text that the standard asks for. */
  lemma {:induction false} FormatMeetsIso(items: seq<Item>, args: seq<Arg>)
    requires ValidItems(items) && FaithfulItems(items, args, 0)
    ensures Formatted(Written(items), Cursor(0, args)) == IsoItems(items, args, 0)
  {
    hide Formatted, Written, CodeItems, IsoItems, FaithfulItems, ValidItems;
    FormattedIsItems(items, args);
    ItemsMeetIso(items, args, 0);
  }

  /** `%s%d` of "x" and 5 prints "x5": the string takes the first argument, the number the second. */
  lemma {:induction false} ArgumentsExample(args: seq<Arg>)
    requires args == [Str("x"), Int(5)]
    ensures Formatted("%s%d", Cursor(0, args)) == "x5"
  {
    hide Formatted, CodeText, SpecText;
    var (a, b) := (Spec("", Absent, false, Absent, Plain, 's'), Spec("", Absent, false, Absent, Plain, 'd'));
    var items := [Convert(a), Convert(b)];
    ExampleIsWritten(items, a, b);
    FormattedIsItems(items, args);
    ExamplePrints(a, b, args);
    assert items[1..] == [Convert(b)] && items[1..][1..] == [];
    assert CodeItems(items[1..][1..], args, 2) == "";
    assert CodeItems(items[1..], args, 1) == CodeText(b, args, 1) + "";
    assert CodeItems(items, args, 0) == CodeText(a, args, 0) + CodeItems(items[1..], args, 1);
  }

  lemma {:induction false} ExampleIsWritten(items: seq<Item>, a: Spec, b: Spec)
    requires a == Spec("", Absent, false, Absent, Plain, 's') && b == Spec("", Absent, false, Absent, Plain, 'd')
    requires items == [Convert(a), Convert(b)]
    ensures Written(items) == "%s%d" && ValidItems(items)
  {
    assert SpecText(a) == "s" && SpecText(b) == "d";
    assert items[1..] == [Convert(b)] && items[1..][1..] == [];
    assert Written(items[1..][1..]) == "";
    assert Written(items[1..]) == "%d";
  }

  lemma {:induction false} ExamplePrints(a: Spec, b: Spec, args: seq<Arg>)
    requires a == Spec("", Absent, false, Absent, Plain, 's') && b == Spec("", Absent, false, Absent, Plain, 'd')
    requires args == [Str("x"), Int(5)]
    ensures CodeText(a, args, 0) == "x" && CodeText(b, args, 1) == "5"
  {
    hide CodeText, StringText;
    StringIff(a, args, 0);
    assert StringText(a, args, 0) == "x" by { BareString(a, args); }
    BareNumber(b, args);
  }

  lemma {:induction false} BareString(sp: Spec, args: seq<Arg>)
    requires sp == Spec("", Absent, false, Absent, Plain, 's') && args == [Str("x"), Int(5)]
    ensures StringText(sp, args, 0) == "x"
  {
    hide Contains;
    NothingContained();
  }

  lemma {:induction false} BareNumber(sp: Spec, args: seq<Arg>)
    requires sp == Spec("", Absent, false, Absent, Plain, 'd') && args == [Str("x"), Int(5)]
    ensures CodeText(sp, args, 1) == "5"
  {
    hide CodeText, IsoText, Text, AsSigned, Numeral, Contains, CodeConversion;
    NothingContained();
    FiveIs();
    CodeTextIs(sp, args, 1);
    SameConversion(sp, args, 1);
    BareText(IsoConversion(sp, args, 1));
    assert "" + "5" == "5";
  }

  lemma {:induction false} FiveIs()
    ensures AsSigned(5, 32) == 5 && Numeral(5, 10, false) == "5"
  {
    hide Power;
    WordPowers();
  }
}
