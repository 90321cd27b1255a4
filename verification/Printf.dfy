/**
 The small formatter: the bounded output buffer, the number routines that write into it, the
 parser of conversion specifications and the main loop.  This is the build without support for
 floating point, as the runtime makes it with GCC: `f`, `e` and `g` are ordinary characters.

 A format and a string argument are the characters before the terminating NUL.  The machine has
 32-bit `int`, `long` and pointers and an unsigned `char`.
 */
module Printf {
  import opened Arithmetic
  import opened IntegerText

  /** The capacity of the digit buffer. */
  const NTOA_SIZE: nat := 32

  // ----- The bounded output buffer

  /** A missing buffer holds nothing. */
  ghost function Cells(buffer: array?<char>): (s: string)
    reads buffer
  {
    if buffer == null then "" else buffer[..]
  }

  /** `cells` after `text` is written from `idx` on, cut off at `maxlen`. */
  ghost function Put(cells: string, idx: nat, maxlen: nat, text: string): (r: string)
  {
    seq(|cells|, k requires 0 <= k < |cells| =>
      if idx <= k < idx + |text| && k < maxlen then text[k - idx] else cells[k])
  }

  lemma {:induction false} PutPut(cells: string, idx: nat, maxlen: nat, s: string, t: string)
    ensures Put(Put(cells, idx, maxlen, s), idx + |s|, maxlen, t) == Put(cells, idx, maxlen, s + t)
  {}

  lemma {:induction false} PutNext(cells: string, idx: nat, maxlen: nat, s: string, n: nat)
    requires n < |s|
    ensures Put(Put(cells, idx, maxlen, s[..n]), idx + n, maxlen, [s[n]]) == Put(cells, idx, maxlen, s[..n + 1])
  {
    assert s[..n + 1] == s[..n] + [s[n]];
    PutPut(cells, idx, maxlen, s[..n], [s[n]]);
  }

  lemma {:induction false} PutNothing(cells: string, idx: nat, maxlen: nat)
    ensures Put(cells, idx, maxlen, "") == cells
  {}

  /** The buffer has room for what is written before `end` and below the limit. */
  predicate Fits(buffer: array?<char>, maxlen: nat, end: nat) {
    buffer != null ==> Min(end, maxlen) <= buffer.Length
  }

  method Out(c: char, buffer: array?<char>, idx: nat, maxlen: nat)
    requires Fits(buffer, maxlen, idx + 1)
    modifies buffer
    ensures Cells(buffer) == Put(old(Cells(buffer)), idx, maxlen, [c])
  {
    if buffer != null && idx < maxlen {
      buffer[idx] := c;
    }
  }

  method OutSpaces(buffer: array?<char>, idx: nat, maxlen: nat, count: int) returns (idx': nat)
    requires Fits(buffer, maxlen, idx + |Repeat(' ', count)|)
    modifies buffer
    ensures idx' == idx + |Repeat(' ', count)|
    ensures Cells(buffer) == Put(old(Cells(buffer)), idx, maxlen, Repeat(' ', count))
  {
    hide Put;
    PutNothing(Cells(buffer), idx, maxlen);
    idx' := idx;
    var i := 0;
    while i < count
      invariant 0 <= i && (count >= 0 ==> i <= count) && (count < 0 ==> i == 0)
      invariant idx' == idx + i
      invariant Cells(buffer) == Put(old(Cells(buffer)), idx, maxlen, Repeat(' ', i))
    {
      Out(' ', buffer, idx', maxlen);
      PutPut(old(Cells(buffer)), idx, maxlen, Repeat(' ', i), " ");
      idx', i := idx' + 1, i + 1;
    }
  }

  method OutString(buffer: array?<char>, idx: nat, maxlen: nat, s: string) returns (idx': nat)
    requires Fits(buffer, maxlen, idx + |s|)
    modifies buffer
    ensures idx' == idx + |s|
    ensures Cells(buffer) == Put(old(Cells(buffer)), idx, maxlen, s)
  {
    hide Put;
    PutNothing(Cells(buffer), idx, maxlen);
    idx' := idx;
    for i := 0 to |s|
      invariant idx' == idx + i
      invariant Cells(buffer) == Put(old(Cells(buffer)), idx, maxlen, s[..i])
    {
      Out(s[i], buffer, idx', maxlen);
      PutNext(old(Cells(buffer)), idx, maxlen, s, i);
      idx' := idx' + 1;
    }
    assert s[..|s|] == s;
  }

  // ----- Numbers

  function Rev(s: string): (r: string)
    ensures |r| == |s|
  {
    if s == "" then "" else [s[|s| - 1]] + Rev(s[..|s| - 1])
  }

  lemma {:induction false} RevAt(s: string, i: nat)
    requires i < |s|
    ensures Rev(s)[i] == s[|s| - 1 - i]
  {
    if i > 0 {
      RevAt(s[..|s| - 1], i - 1);
    }
  }

  lemma {:induction false} RevAppend(s: string, c: char)
    ensures Rev(s + [c]) == [c] + Rev(s)
  {
    assert (s + [c])[..|s|] == s;
  }

  lemma {:induction false} RevFront(s: string, n: nat)
    requires n <= |s|
    ensures Rev(s[..n]) == Rev(s)[|s| - n..]
  {
    if n == |s| {
      assert s[..n] == s;
    } else {
      RevFront(s[..|s| - 1], n);
      assert s[..|s| - 1][..n] == s[..n];
    }
  }

  method OutDigits(buffer: array?<char>, idx: nat, maxlen: nat, buf: array<char>, len: nat) returns (idx': nat)
    requires Fits(buffer, maxlen, idx + len) && len <= buf.Length && buffer != buf
    modifies buffer
    ensures idx' == idx + len
    ensures Cells(buffer) == Put(old(Cells(buffer)), idx, maxlen, Rev(buf[..len]))
  {
    hide Put, Rev;
    PutNothing(Cells(buffer), idx, maxlen);
    ghost var text := Rev(buf[..len]);
    var left := len;
    idx' := idx;
    while left > 0
      invariant left <= len && idx' == idx + (len - left) && text == Rev(buf[..len])
      invariant Cells(buffer) == Put(old(Cells(buffer)), idx, maxlen, text[..len - left])
    {
      left := left - 1;
      Out(buf[left], buffer, idx', maxlen);
      RevAt(buf[..len], len - left - 1);
      PutNext(old(Cells(buffer)), idx, maxlen, text, len - left - 1);
      idx' := idx' + 1;
    }
    assert text[..len] == text;
  }

  method OutRev(buffer: array?<char>, idx: nat, maxlen: nat, buf: array<char>, len: nat, width: nat, f: Flags)
    returns (idx': nat)
    requires len <= buf.Length && buffer != buf
    requires Fits(buffer, maxlen, idx + |Padded(Rev(buf[..len]), width, f)|)
    modifies buffer
    ensures idx' == idx + |Padded(Rev(buf[..len]), width, f)|
    ensures Cells(buffer) == Put(old(Cells(buffer)), idx, maxlen, Padded(Rev(buf[..len]), width, f))
  {
    hide Put, Rev;
    ghost var (cells, digits) := (Cells(buffer), Rev(buf[..len]));
    ghost var text := "";
    PutNothing(cells, idx, maxlen);
    idx' := idx;
    if !f.left && !f.zeropad {
      idx' := OutSpaces(buffer, idx', maxlen, width - len);
      text := Repeat(' ', width - len);
    }
    assert Rev(buf[..len]) == digits;
    idx' := OutDigits(buffer, idx', maxlen, buf, len);
    PutPut(cells, idx, maxlen, text, digits);
    text := text + digits;
    if f.left {
      idx' := OutSpaces(buffer, idx', maxlen, width - len);
      PutPut(cells, idx, maxlen, text, Repeat(' ', width - len));
      text := text + Repeat(' ', width - len);
    }
    assert text == Padded(digits, width, f);
  }

  lemma {:induction false} OneMoreZero(s: string, n: nat)
    requires n >= |s|
    ensures ZeroExtend(s, n + 1) == "0" + ZeroExtend(s, n)
  {}

  /** Appends zeros to the digit buffer up to `upto`, as far as there is room. */
  method AppendZeros(buf: array<char>, len: nat, upto: nat) returns (len': nat)
    requires len <= buf.Length
    modifies buf
    ensures len <= len' <= buf.Length
    ensures Rev(buf[..len']) == ZeroExtend(Rev(old(buf[..len])), Min(upto, buf.Length))
  {
    hide Rev;
    len' := len;
    ghost var digits := Rev(buf[..len]);
    while len' < upto && len' < buf.Length
      invariant len <= len' <= buf.Length && (len' == len || len' <= upto)
      invariant Rev(buf[..len']) == ZeroExtend(digits, len')
    {
      buf[len'] := '0';
      len' := len' + 1;
      assert buf[..len'] == buf[..len' - 1] + ['0'];
      RevAppend(buf[..len' - 1], '0');
      OneMoreZero(digits, len' - 1);
    }
  }

  /** Appends one character to the digit buffer if there is room. */
  method AppendChar(buf: array<char>, len: nat, c: char) returns (len': nat)
    requires len <= buf.Length
    modifies buf
    ensures len' == if len < buf.Length then len + 1 else len
    ensures Rev(buf[..len']) == if len < buf.Length then [c] + Rev(old(buf[..len])) else Rev(old(buf[..len]))
  {
    hide Rev;
    len' := len;
    if len < buf.Length {
      buf[len] := c;
      len' := len + 1;
      assert buf[..len'] == old(buf[..len]) + [c];
      RevAppend(old(buf[..len]), c);
    }
  }

  /** Replaces leading padding by the prefix of the base. */
  method AppendPrefix(buf: array<char>, len: nat, base: nat, prec: nat, width: nat, f: Flags) returns (len': nat)
    requires len <= buf.Length && f.hash
    modifies buf
    ensures len' <= buf.Length
    ensures Rev(buf[..len']) == Prefixed(Rev(old(buf[..len])), base, prec, width, f, buf.Length)
  {
    hide Rev;
    len' := len;
    ghost var digits := Rev(buf[..len]);
    if !f.precision && len > 0 && (len == prec || len == width) {
      len' := len - 1;
      if len' > 0 && base == 16 {
        len' := len' - 1;
      }
    }
    RevFront(buf[..len], len');
    assert buf[..len][..len'] == buf[..len'];
    assert Rev(buf[..len']) == digits[PrefixRoom(digits, base, prec, width, f)..];
    if base == 16 && !f.upper {
      len' := AppendChar(buf, len', 'x');
    } else if base == 16 && f.upper {
      len' := AppendChar(buf, len', 'X');
    } else if base == 2 {
      len' := AppendChar(buf, len', 'b');
    }
    len' := AppendChar(buf, len', '0');
  }

  /** Appends the zeros that the precision and the width ask for, and computes the width that is left. */
  method AppendPadding(buf: array<char>, len: nat, negative: bool, prec: nat, width: nat, f: Flags)
    returns (len': nat, width': nat)
    requires len <= buf.Length
    modifies buf
    ensures len' <= buf.Length && width' == DigitWidth(negative, width, f)
    ensures Rev(buf[..len']) == Zeroed(Rev(old(buf[..len])), negative, prec, width, f, buf.Length)
  {
    hide ZeroExtend, Rev;
    width', len' := width, len;
    if !f.left {
      if width > 0 && f.zeropad && (negative || f.plus || f.space) {
        width' := width - 1;
      }
      len' := AppendZeros(buf, len', prec);
      if f.zeropad {
        len' := AppendZeros(buf, len', width');
      }
    }
  }

  method AppendSign(buf: array<char>, len: nat, negative: bool, f: Flags) returns (len': nat)
    requires len <= buf.Length
    modifies buf
    ensures len' <= buf.Length && Rev(buf[..len']) == Signed(Rev(old(buf[..len])), negative, f, buf.Length)
  {
    hide Rev;
    len' := len;
    if negative {
      len' := AppendChar(buf, len, '-');
    } else if f.plus {
      len' := AppendChar(buf, len, '+');
    } else if f.space {
      len' := AppendChar(buf, len, ' ');
    } else {
      assert "" + Rev(buf[..len]) == Rev(buf[..len]);
    }
  }

  method NtoaFormat(buffer: array?<char>, idx: nat, maxlen: nat, buf: array<char>, len: nat,
                    negative: bool, base: nat, prec: nat, width: nat, f: Flags)
    returns (idx': nat)
    requires len <= buf.Length && buffer != buf
    requires Fits(buffer, maxlen, idx + |FormattedDigits(Rev(buf[..len]), negative, base, prec, width, f, buf.Length)|)
    modifies buffer, buf
    ensures var text := FormattedDigits(Rev(old(buf[..len])), negative, base, prec, width, f, buf.Length);
      idx' == idx + |text| && Cells(buffer) == Put(old(Cells(buffer)), idx, maxlen, text)
  {
    hide Put, Zeroed, Signed, Padded, Prefixed, DigitWidth, Rev;
    ghost var cells := Cells(buffer);
    var n, w := AppendPadding(buf, len, negative, prec, width, f);
    if f.hash {
      n := AppendPrefix(buf, n, base, prec, w, f);
    } else {
      NoPrefix(Rev(buf[..n]), base, prec, w, f, buf.Length);
    }
    n := AppendSign(buf, n, negative, f);
    assert Cells(buffer) == cells;
    idx' := OutRev(buffer, idx, maxlen, buf, n, w, f);
  }

  lemma {:induction false} NoPrefix(s: string, base: nat, prec: nat, width: nat, f: Flags, capacity: nat)
    requires |s| <= capacity && !f.hash
    ensures Prefixed(s, base, prec, width, f, capacity) == s
  {}

  lemma {:induction false} BufferedStep(value: nat, base: nat, upper: bool, capacity: nat)
    requires 2 <= base <= 16 && capacity > 0
    ensures value / base >= 0 && value % base < 16
    ensures BufferedDigits(value, base, upper, capacity)
         == (if value / base != 0 && capacity > 1 then BufferedDigits(value / base, base, upper, capacity - 1) else "")
            + [Digit(value % base, upper)]
  {
    hide Digit;
  }

  /** The digits of `value`, least significant first, as far as the digit buffer has room. */
  method FillDigits(buf: array<char>, value: nat, base: nat, upper: bool) returns (len: nat)
    requires 2 <= base <= 16 && buf.Length > 0
    modifies buf
    ensures len <= buf.Length && Rev(buf[..len]) == BufferedDigits(value, base, upper, buf.Length)
  {
    hide Digit, Rev, BufferedDigits;
    var v: nat, more := value, true;
    len := 0;
    while more
      invariant len <= buf.Length && (more ==> len < buf.Length)
      invariant (if more then BufferedDigits(v, base, upper, buf.Length - len) else "") + Rev(buf[..len])
             == BufferedDigits(value, base, upper, buf.Length)
      decreases more, buf.Length - len
    {
      ghost var before := buf[..len];
      BufferedStep(v, base, upper, buf.Length - len);
      buf[len] := Digit(v % base, upper);
      len := len + 1;
      assert buf[..len] == before + [Digit(v % base, upper)];
      RevAppend(before, Digit(v % base, upper));
      v := v / base;
      more := v != 0 && len < buf.Length;
    }
  }

  lemma {:induction false} NaturalCases(value: nat, base: nat, f: Flags, s: string)
    requires 2 <= base <= 16 && s == ""
    ensures NaturalDigits(value, base, f, NTOA_SIZE)
         == if !f.precision || value != 0 then BufferedDigits(value, base, f.upper, NTOA_SIZE) else Rev(s)
  {}

  /** The integer conversion of `value` into `base`. */
  method Ntoa(buffer: array?<char>, idx: nat, maxlen: nat, value: nat, negative: bool,
              base: nat, prec: nat, width: nat, f: Flags)
    returns (idx': nat)
    requires 2 <= base <= 16
    requires Fits(buffer, maxlen, idx + |ConversionText(value, negative, base, prec, width, f, NTOA_SIZE)|)
    modifies buffer
    ensures var text := ConversionText(value, negative, base, prec, width, f, NTOA_SIZE);
      idx' == idx + |text| && Cells(buffer) == Put(old(Cells(buffer)), idx, maxlen, text)
  {
    hide Put, FormattedDigits, BufferedDigits, Rev, NaturalDigits;
    ghost var cells := Cells(buffer);
    var buf := new char[NTOA_SIZE];
    var len := 0;
    var f' := if value == 0 then f.(hash := false) else f;
    if !f'.precision || value != 0 {
      len := FillDigits(buf, value, base, f'.upper);
    }
    NaturalCases(value, base, f', buf[..0]);
    assert Rev(buf[..len]) == NaturalDigits(value, base, f', NTOA_SIZE) && Cells(buffer) == cells;
    idx' := NtoaFormat(buffer, idx, maxlen, buf, len, negative, base, prec, width, f');
  }

  // ----- Conversion specifications

  datatype Arg = Int(value: int) | Str(text: string)

  /** The length modifiers, by the type they select. */
  datatype Length = Default | Char | Short | Long | LongLong

  datatype Directive = Directive(flags: Flags, width: nat, prec: nat, length: Length, conv: char)

  /** A position in the format and the arguments not yet consumed. */
  datatype Cursor = Cursor(pos: nat, args: seq<Arg>)

  function At(format: string, pos: nat): (c: char) {
    if pos < |format| then format[pos] else '\0'
  }

  predicate IsDigit(c: char) {
    '0' <= c <= '9'
  }

  const NoFlags := Flags(false, false, false, false, false, false, false)

  /** The next argument; a missing one counts as zero or as an empty string. */
  function NextInt(args: seq<Arg>): (v: int) {
    if args != [] && args[0].Int? then args[0].value else 0
  }

  function NextText(args: seq<Arg>): (s: string) {
    if args != [] && args[0].Str? then args[0].text else ""
  }

  function Rest(args: seq<Arg>): (r: seq<Arg>) {
    if args == [] then [] else args[1..]
  }

  function Unsigned(v: int, bits: nat): (w: nat)
    ensures w < Power(2, bits)
  {
    v % Power(2, bits)
  }

  lemma {:induction false} Congruent(v: int, m: nat)
    requires m > 0
    ensures (v - v % m) % m == 0 && (v - (v % m - m)) % m == 0
  {
    assert v - v % m == v / m * m && v - (v % m - m) == (v / m + 1) * m;
    DivModUnique(v - v % m, m, v / m, 0);
    DivModUnique(v - (v % m - m), m, v / m + 1, 0);
  }

  function AsSigned(v: int, bits: nat): (w: int)
    requires bits > 0
  {
    var u := Unsigned(v, bits);
    if u < Power(2, bits - 1) then u else u - Power(2, bits)
  }

  /** The two conversions keep a value modulo the size of the type, and yield a value of the type. */
  lemma {:induction false} ConvertedIs(v: int, bits: nat)
    requires bits > 0
    ensures 0 <= Unsigned(v, bits) < Power(2, bits) && (v - Unsigned(v, bits)) % Power(2, bits) == 0
    ensures 0 <= AsSigned(v, bits) + Power(2, bits - 1) < Power(2, bits) && (v - AsSigned(v, bits)) % Power(2, bits) == 0
  {
    Congruent(v, Power(2, bits));
    PowerNext(2, bits - 1);
  }

  function FlagOf(c: char, f: Flags): (f': Flags) {
    match c
    case '0' => f.(zeropad := true)
    case '-' => f.(left := true)
    case '+' => f.(plus := true)
    case ' ' => f.(space := true)
    case '#' => f.(hash := true)
    case _ => f
  }

  predicate IsFlag(c: char) {
    c == '0' || c == '-' || c == '+' || c == ' ' || c == '#'
  }

  function FlagsAt(format: string, pos: nat, f: Flags): (r: (Flags, nat))
    ensures r.1 >= pos
    decreases |format| - pos
  {
    if pos < |format| && IsFlag(format[pos]) then FlagsAt(format, pos + 1, FlagOf(format[pos], f)) else (f, pos)
  }

  /** The decimal number at `pos`, modulo the word size, and the position behind it. */
  function NumberAt(format: string, pos: nat, acc: nat): (r: (nat, nat))
    ensures r.1 >= pos
    decreases |format| - pos
  {
    if pos < |format| && IsDigit(format[pos])
    then NumberAt(format, pos + 1, (acc * 10 + DigitValue(format[pos])) % WORD)
    else (acc, pos)
  }

  /** The width field: a number, or an argument whose negative value means left justification. */
  function WidthAt(format: string, cur: Cursor, f: Flags): (r: (Flags, nat, Cursor))
    ensures r.2.pos >= cur.pos
  {
    if IsDigit(At(format, cur.pos)) then
      var (w, pos) := NumberAt(format, cur.pos, 0);
      (f, w, cur.(pos := pos))
    else if At(format, cur.pos) == '*' then
      var w := AsSigned(NextInt(cur.args), 32);
      (if w < 0 then f.(left := true) else f, if w < 0 then -w else w, Cursor(cur.pos + 1, Rest(cur.args)))
    else (f, 0, cur)
  }

  /** The precision field; a negative argument means zero. */
  function PrecisionAt(format: string, cur: Cursor, f: Flags): (r: (Flags, nat, Cursor))
    ensures r.2.pos >= cur.pos
  {
    if At(format, cur.pos) != '.' then (f, 0, cur)
    else
      var (f', pos) := (f.(precision := true), cur.pos + 1);
      if IsDigit(At(format, pos)) then
        var (p, pos') := NumberAt(format, pos, 0);
        (f', p, cur.(pos := pos'))
      else if At(format, pos) == '*' then
        var p := AsSigned(NextInt(cur.args), 32);
        (f', if p > 0 then p else 0, Cursor(pos + 1, Rest(cur.args)))
      else (f', 0, cur.(pos := pos))
  }

  function LengthAt(format: string, pos: nat): (r: (Length, nat))
    ensures r.1 >= pos
  {
    match At(format, pos)
    case 'l' => if At(format, pos + 1) == 'l' then (LongLong, pos + 2) else (Long, pos + 1)
    case 'h' => if At(format, pos + 1) == 'h' then (Char, pos + 2) else (Short, pos + 1)
    case 't' => (Long, pos + 1)
    case 'j' => (LongLong, pos + 1)
    case 'z' => (Long, pos + 1)
    case _ => (Default, pos)
  }

  /** The specification whose flags start at the cursor; the result stands on the conversion character. */
  function DirectiveAt(format: string, cur: Cursor): (r: (Directive, Cursor))
    ensures r.1.pos >= cur.pos
  {
    var (f, pos) := FlagsAt(format, cur.pos, NoFlags);
    var (f1, w, cur1) := WidthAt(format, cur.(pos := pos), f);
    var (f2, p, cur2) := PrecisionAt(format, cur1, f1);
    var (l, pos3) := LengthAt(format, cur2.pos);
    (Directive(f2, w, p, l, At(format, pos3)), cur2.(pos := pos3))
  }

  // ----- Conversions

  predicate IsSigned(conv: char) {
    conv == 'd' || conv == 'i'
  }

  predicate IsInteger(conv: char) {
    IsSigned(conv) || conv == 'u' || conv == 'x' || conv == 'X' || conv == 'o' || conv == 'b'
  }

  function Base(conv: char): (base: nat)
    ensures 2 <= base <= 16
  {
    if conv == 'x' || conv == 'X' then 16 else if conv == 'o' then 8 else if conv == 'b' then 2 else 10
  }

  function Bits(length: Length): (n: nat)
    ensures n > 0
  {
    match length
    case Default => 32 case Char => 8 case Short => 16 case Long => 32 case LongLong => 64
  }

  /** The value that the conversion and the length modifier make of an argument; `char` is unsigned. */
  function Operand(d: Directive, v: int): (w: int) {
    if IsSigned(d.conv) && d.length != Char then AsSigned(v, Bits(d.length)) else Unsigned(v, Bits(d.length))
  }

  /** The flags that matter for an integer conversion. */
  function IntegerFlags(d: Directive): (f: Flags) {
    var f := d.flags;
    var f := if Base(d.conv) == 10 then f.(hash := false) else f;
    var f := if d.conv == 'X' then f.(upper := true) else f;
    var f := if !IsSigned(d.conv) then f.(plus := false, space := false) else f;
    if f.precision then f.(zeropad := false) else f
  }

  function Magnitude(v: int): (n: nat) {
    if v > 0 then v else -v
  }

  function IntegerDirective(d: Directive, v: int): (s: string) {
    var w := Operand(d, v);
    ConversionText(Magnitude(w), w < 0, Base(d.conv), d.prec, d.width, IntegerFlags(d), NTOA_SIZE)
  }

  function StringDirective(d: Directive, text: string): (s: string) {
    Justify(if d.flags.precision && d.prec < |text| then text[..d.prec] else text, d.width, d.flags.left)
  }

  function CharOf(v: int): (c: char) {
    (v % 256) as char
  }

  function PointerDirective(d: Directive, v: int): (s: string) {
    ConversionText(Unsigned(v, 32), false, 16, d.prec, 8, d.flags.(zeropad := true, upper := true), NTOA_SIZE)
  }

  function DirectiveText(d: Directive, args: seq<Arg>): (s: string) {
    if IsInteger(d.conv) then IntegerDirective(d, NextInt(args))
    else if d.conv == 'c' then Justify([CharOf(NextInt(args))], d.width, d.flags.left)
    else if d.conv == 's' then StringDirective(d, NextText(args))
    else if d.conv == 'p' then PointerDirective(d, NextInt(args))
    else [d.conv]
  }

  predicate TakesArgument(conv: char) {
    IsInteger(conv) || conv == 'c' || conv == 's' || conv == 'p'
  }

  /** The whole text of a format from the cursor on. */
  function Formatted(format: string, cur: Cursor): (s: string)
    decreases |format| - cur.pos
  {
    if cur.pos >= |format| then ""
    else if format[cur.pos] != '%' then [format[cur.pos]] + Formatted(format, cur.(pos := cur.pos + 1))
    else
      var (d, next) := DirectiveAt(format, cur.(pos := cur.pos + 1));
      DirectiveText(d, next.args)
      + Formatted(format, Cursor(next.pos + 1, if TakesArgument(d.conv) then Rest(next.args) else next.args))
  }

  /** No specification is cut off by the end of the format. */
  predicate Complete(format: string, cur: Cursor)
    decreases |format| - cur.pos
  {
    if cur.pos >= |format| then true
    else if format[cur.pos] != '%' then Complete(format, cur.(pos := cur.pos + 1))
    else
      var (d, next) := DirectiveAt(format, cur.(pos := cur.pos + 1));
      && next.pos < |format|
      && Complete(format, Cursor(next.pos + 1, if TakesArgument(d.conv) then Rest(next.args) else next.args))
  }

  // ----- The formatter

  method Atoi(format: string, pos: nat) returns (value: nat, pos': nat)
    ensures (value, pos') == NumberAt(format, pos, 0)
  {
    value, pos' := 0, pos;
    while pos' < |format| && IsDigit(format[pos'])
      invariant NumberAt(format, pos', value) == NumberAt(format, pos, 0)
    {
      value := (value * 10 + DigitValue(format[pos'])) % WORD;
      pos' := pos' + 1;
    }
  }

  method ReadFlags(format: string, pos: nat) returns (f: Flags, pos': nat)
    ensures (f, pos') == FlagsAt(format, pos, NoFlags)
  {
    f, pos' := NoFlags, pos;
    var more := true;
    while more
      invariant pos' <= |format| + pos
      invariant if more then FlagsAt(format, pos', f) == FlagsAt(format, pos, NoFlags)
                else (f, pos') == FlagsAt(format, pos, NoFlags)
      decreases more, |format| - pos'
    {
      more := pos' < |format| && IsFlag(format[pos']);
      if more {
        f, pos' := FlagOf(format[pos'], f), pos' + 1;
      }
    }
  }

  method ReadDirective(format: string, cur: Cursor) returns (d: Directive, cur': Cursor)
    ensures (d, cur') == DirectiveAt(format, cur)
  {
    hide FlagsAt, NumberAt, AsSigned;
    var f, pos := ReadFlags(format, cur.pos);
    var args := cur.args;
    var width: nat, prec: nat := 0, 0;
    if IsDigit(At(format, pos)) {
      width, pos := Atoi(format, pos);
    } else if At(format, pos) == '*' {
      var w := AsSigned(NextInt(args), 32);
      if w < 0 {
        f, width := f.(left := true), -w;
      } else {
        width := w;
      }
      pos, args := pos + 1, Rest(args);
    }
    if At(format, pos) == '.' {
      f, pos := f.(precision := true), pos + 1;
      if IsDigit(At(format, pos)) {
        prec, pos := Atoi(format, pos);
      } else if At(format, pos) == '*' {
        var p := AsSigned(NextInt(args), 32);
        prec := if p > 0 then p else 0;
        pos, args := pos + 1, Rest(args);
      }
    }
    var (l, pos3) := LengthAt(format, pos);
    d, cur' := Directive(f, width, prec, l, At(format, pos3)), Cursor(pos3, args);
  }

  /** Writes `s` justified in a field of the given width. */
  method OutField(buffer: array?<char>, idx: nat, maxlen: nat, s: string, width: nat, left: bool)
    returns (idx': nat)
    requires Fits(buffer, maxlen, idx + |Justify(s, width, left)|)
    modifies buffer
    ensures idx' == idx + |Justify(s, width, left)|
    ensures Cells(buffer) == Put(old(Cells(buffer)), idx, maxlen, Justify(s, width, left))
  {
    hide Put;
    ghost var cells := Cells(buffer);
    var pad := width - |s|;
    if left {
      idx' := OutString(buffer, idx, maxlen, s);
      idx' := OutSpaces(buffer, idx', maxlen, pad);
      PutPut(cells, idx, maxlen, s, Repeat(' ', pad));
    } else {
      idx' := OutSpaces(buffer, idx, maxlen, pad);
      idx' := OutString(buffer, idx', maxlen, s);
      PutPut(cells, idx, maxlen, Repeat(' ', pad), s);
    }
  }

  method OutDirective(buffer: array?<char>, idx: nat, maxlen: nat, d: Directive, args: seq<Arg>)
    returns (idx': nat)
    requires Fits(buffer, maxlen, idx + |DirectiveText(d, args)|)
    modifies buffer
    ensures idx' == idx + |DirectiveText(d, args)|
    ensures Cells(buffer) == Put(old(Cells(buffer)), idx, maxlen, DirectiveText(d, args))
  {
    hide Put, ConversionText, Operand, IntegerFlags, Base, Justify, Unsigned;
    if IsInteger(d.conv) {
      var v := Operand(d, NextInt(args));
      idx' := Ntoa(buffer, idx, maxlen, Magnitude(v), v < 0, Base(d.conv), d.prec, d.width, IntegerFlags(d));
    } else if d.conv == 'c' {
      idx' := OutField(buffer, idx, maxlen, [CharOf(NextInt(args))], d.width, d.flags.left);
    } else if d.conv == 's' {
      var s := NextText(args);
      var n := if d.flags.precision && d.prec < |s| then d.prec else |s|;
      assert s[..|s|] == s;
      idx' := OutField(buffer, idx, maxlen, s[..n], d.width, d.flags.left);
    } else if d.conv == 'p' {
      idx' := Ntoa(buffer, idx, maxlen, Unsigned(NextInt(args), 32), false, 16, d.prec, 8,
                   d.flags.(zeropad := true, upper := true));
    } else {
      Out(d.conv, buffer, idx, maxlen);
      idx' := idx + 1;
    }
  }

  /** The text cut off at `maxlen`, with its terminating NUL. */
  lemma {:induction false} Truncated(cells: string, maxlen: nat, text: string)
    requires maxlen > 0 && Min(|text| + 1, maxlen) <= |cells|
    ensures var (k, r) := (Min(|text|, maxlen - 1), Put(Put(cells, 0, maxlen, text), Min(|text|, maxlen - 1), maxlen, "\0"));
      && |r| == |cells| && r[..k] == text[..k] && r[k] == '\0' && r[k + 1..] == cells[k + 1..]
  {}

  /** The part of the format that one iteration of the main loop consumes. */
  ghost function Piece(format: string, cur: Cursor): (r: (string, Cursor))
    requires cur.pos < |format|
    ensures r.1.pos > cur.pos
  {
    if format[cur.pos] != '%' then ([format[cur.pos]], cur.(pos := cur.pos + 1))
    else
      var (d, next) := DirectiveAt(format, cur.(pos := cur.pos + 1));
      (DirectiveText(d, next.args),
       Cursor(next.pos + 1, if TakesArgument(d.conv) then Rest(next.args) else next.args))
  }

  lemma {:induction false} FormattedStep(format: string, cur: Cursor, text: string)
    requires cur.pos < |format|
    ensures Complete(format, cur) ==> Complete(format, Piece(format, cur).1)
    ensures text + Formatted(format, cur)
         == (text + Piece(format, cur).0) + Formatted(format, Piece(format, cur).1)
  {
    hide DirectiveAt, DirectiveText, TakesArgument;
  }

  method OutPiece(buffer: array?<char>, idx: nat, maxlen: nat, format: string, cur: Cursor)
    returns (idx': nat, cur': Cursor)
    requires cur.pos < |format| && Fits(buffer, maxlen, idx + |Piece(format, cur).0|)
    modifies buffer
    ensures idx' == idx + |Piece(format, cur).0| && cur' == Piece(format, cur).1
    ensures Cells(buffer) == Put(old(Cells(buffer)), idx, maxlen, Piece(format, cur).0)
  {
    hide Put, DirectiveAt, DirectiveText, TakesArgument;
    if format[cur.pos] != '%' {
      Out(format[cur.pos], buffer, idx, maxlen);
      idx', cur' := idx + 1, cur.(pos := cur.pos + 1);
    } else {
      var d, next := ReadDirective(format, cur.(pos := cur.pos + 1));
      idx' := OutDirective(buffer, idx, maxlen, d, next.args);
      cur' := Cursor(next.pos + 1, if TakesArgument(d.conv) then Rest(next.args) else next.args);
    }
  }

  /** The main loop. */
  method OutFormat(buffer: array?<char>, maxlen: nat, format: string, args: seq<Arg>) returns (idx: nat)
    requires Fits(buffer, maxlen, |Formatted(format, Cursor(0, args))|) && Complete(format, Cursor(0, args))
    modifies buffer
    ensures idx == |Formatted(format, Cursor(0, args))|
    ensures Cells(buffer) == Put(old(Cells(buffer)), 0, maxlen, Formatted(format, Cursor(0, args)))
  {
    hide Put, Formatted, Complete, Piece;
    ghost var cells := Cells(buffer);
    ghost var text := "";
    var cur := Cursor(0, args);
    idx := 0;
    PutNothing(cells, 0, maxlen);
    assert text + Formatted(format, cur) == Formatted(format, cur);
    while cur.pos < |format|
      invariant idx == |text| && text + Formatted(format, cur) == Formatted(format, Cursor(0, args))
      invariant Cells(buffer) == Put(cells, 0, maxlen, text) && Complete(format, cur)
      decreases |format| - cur.pos
    {
      FormattedStep(format, cur, text);
      ghost var piece := Piece(format, cur).0;
      idx, cur := OutPiece(buffer, idx, maxlen, format, cur);
      PutPut(cells, 0, maxlen, text, piece);
      text := text + piece;
    }
    FormattedEnd(format, cur);
    assert text + "" == text;
  }

  lemma {:induction false} FormattedEnd(format: string, cur: Cursor)
    requires cur.pos >= |format|
    ensures Formatted(format, cur) == ""
  {}

  /**
   The length of the untruncated text, and in the buffer as much of that text as fits before the
   terminating NUL; nothing else in the buffer changes.
   */
  method Vsnprintf(buffer: array?<char>, maxlen: nat, format: string, args: seq<Arg>) returns (n: nat)
    requires Fits(buffer, maxlen, |Formatted(format, Cursor(0, args))| + 1)
    requires maxlen < WORD && Complete(format, Cursor(0, args))
    modifies buffer
    ensures n == |Formatted(format, Cursor(0, args))|
    ensures buffer != null && maxlen > 0 ==>
      var (k, text) := (Min(n, maxlen - 1), Formatted(format, Cursor(0, args)));
      buffer[..k] == text[..k] && buffer[k] == '\0' && buffer[k + 1..] == old(buffer[k + 1..])
    ensures buffer != null && maxlen == 0 ==> buffer[..] == old(buffer[..])
  {
    hide Formatted, Complete, Put;
    n := OutFormat(buffer, maxlen, format, args);
    Out('\0', buffer, if n < maxlen then n else (maxlen + WORD - 1) % WORD, maxlen);
    if buffer != null {
      ghost var cells := old(buffer[..]);
      if maxlen > 0 {
        Truncated(cells, maxlen, Formatted(format, Cursor(0, args)));
        ghost var k := Min(n, maxlen - 1);
        assert buffer[..] == Put(Put(cells, 0, maxlen, Formatted(format, Cursor(0, args))), k, maxlen, "\0");
        assert buffer[..k] == buffer[..][..k] && buffer[k + 1..] == buffer[..][k + 1..];
        assert old(buffer[k + 1..]) == cells[k + 1..];
      } else {
        PutBeyond(cells, 0, Formatted(format, Cursor(0, args)));
        PutBeyond(cells, WORD - 1, "\0");
      }
    }
  }

  lemma {:induction false} PutBeyond(cells: string, idx: nat, text: string)
    ensures Put(cells, idx, 0, text) == cells
  {}

  // ----- Reading back what is written

  ghost predicate Has(format: string, pos: nat, s: string) {
    pos + |s| <= |format| && format[pos..pos + |s|] == s
  }

  lemma {:induction false} HasParts(format: string, pos: nat, s: string, t: string)
    requires Has(format, pos, s + t)
    ensures Has(format, pos, s) && Has(format, pos + |s|, t)
  {
    var both := format[pos..pos + |s + t|];
    assert format[pos..pos + |s|] == both[..|s|];
    assert format[pos + |s|..pos + |s| + |t|] == both[|s|..];
  }

  lemma {:induction false} HasFirst(format: string, pos: nat, s: string)
    requires Has(format, pos, s) && s != ""
    ensures At(format, pos) == s[0] && Has(format, pos + 1, s[1..])
  {
    HasParts(format, pos, s[..1], s[1..]);
    assert s[..1] + s[1..] == s;
    assert format[pos..pos + |s|][0] == format[pos];
  }

  lemma {:induction false} ModOfProduct(x: nat, p: nat, e: nat, m: nat)
    requires m > 0
    ensures (x % m * p + e) % m == (x * p + e) % m
  {
    var (q, r) := (x / m, x % m);
    assert x == q * m + r;
    assert x * p + e == (r * p + e) + (q * p) * m by {
      Regroup(q, m, r, p);
    }
    ModSkips(r * p + e, q * p, m);
  }

  lemma {:induction false} Regroup(q: nat, m: nat, r: nat, p: nat)
    ensures (q * m + r) * p == r * p + (q * p) * m
  {}

  predicate AllDigits(s: string) {
    forall i :: 0 <= i < |s| ==> IsDigit(s[i])
  }

  /** The number `acc` followed by digits that denote `e`, `p` being the power of their count. */
  function Joined(acc: nat, p: nat, e: nat): (n: nat) {
    (acc * p + e) % WORD
  }

  lemma {:induction false} NothingJoined(acc: nat)
    requires acc < WORD
    ensures Joined(acc, 1, 0) == acc
  {}

  /** A number is read as its value modulo the word size. */
  lemma {:induction false} NumberIsRead(format: string, pos: nat, s: string, acc: nat)
    requires Has(format, pos, s) && AllDigits(s) && !IsDigit(At(format, pos + |s|)) && acc < WORD
    ensures NumberAt(format, pos, acc) == (Joined(acc, Power(10, |s|), Evaluate(s, 10)), pos + |s|)
    decreases |s|
  {
    hide Evaluate, Power, DigitValue, Joined;
    if s == "" {
      EvaluateEmpty(10);
      PowerZero(10);
      NothingJoined(acc);
    } else {
      var (d, t) := (DigitValue(s[0]), s[1..]);
      HasFirst(format, pos, s);
      NumberIsRead(format, pos + 1, t, (acc * 10 + d) % WORD);
      assert s == [s[0]] + t;
      EvaluateConcat([s[0]], t, 10);
      EvaluateDigit(s[0]);
      PowerNext(10, |t|);
      ReadStep(acc, d, Power(10, |t|), Evaluate(t, 10));
    }
  }

  lemma {:induction false} PowerZero(base: nat)
    ensures Power(base, 0) == 1
  {}

  lemma {:induction false} PowerNext(base: nat, n: nat)
    ensures Power(base, n + 1) == Power(base, n) * base
  {}

  lemma {:induction false} EvaluateDigit(c: char)
    requires IsDigit(c)
    ensures Evaluate([c], 10) == DigitValue(c)
  {
    EvaluateEmpty(10);
    assert "" + [c] == [c];
    EvaluateSnoc("", c, 10);
  }

  lemma {:induction false} ReadStep(acc: nat, d: nat, p: nat, e: nat)
    ensures Joined((acc * 10 + d) % WORD, p, e) == Joined(acc, p * 10, d * p + e)
  {
    ModOfProduct(acc * 10 + d, p, e, WORD);
    Shift(acc, d, p);
  }

  lemma {:induction false} Shift(acc: nat, d: nat, p: nat)
    ensures (acc * 10 + d) * p == acc * (p * 10) + d * p
  {}

  lemma {:induction false} DecimalDigits(value: nat)
    ensures AllDigits(Numeral(value, 10, false))
    ensures value > 0 ==> Numeral(value, 10, false)[0] != '0'
    decreases value
  {
    NumeralUnmarked(value, 10, false);
    if value >= 10 {
      DecimalDigits(value / 10);
    }
  }

  /** A number that fits a word is read back from its decimal digits. */
  lemma {:induction false} DecimalIsRead(format: string, pos: nat, value: nat)
    requires Has(format, pos, Numeral(value, 10, false)) && value < WORD
    requires !IsDigit(At(format, pos + |Numeral(value, 10, false)|))
    ensures NumberAt(format, pos, 0) == (value, pos + |Numeral(value, 10, false)|)
  {
    hide Numeral, NumberAt;
    DecimalDigits(value);
    NumeralDenotes(value, 10, false);
    NumberIsRead(format, pos, Numeral(value, 10, false), 0);
  }

  /** The decimal conversion without flags is inverted by reading a number. */
  lemma {:induction false} AtoiInvertsNtoa(value: nat)
    requires value < WORD
    ensures var s := ConversionText(value, false, 10, 0, 0, NoFlags, NTOA_SIZE); NumberAt(s, 0, 0) == (value, |s|)
  {
    hide Numeral, NumberAt, BufferedDigits, Power;
    var s := Numeral(value, 10, false);
    PowerGrows(10, 10, NTOA_SIZE);
    TenBillion();
    BufferedDenotes(value, 10, false, NTOA_SIZE);
    assert ConversionText(value, false, 10, 0, 0, NoFlags, NTOA_SIZE) == s;
    DecimalIsRead(s, 0, value);
  }

  lemma {:induction false} TenBillion()
    ensures Power(10, 10) > WORD
  {
    assert Power(10, 5) == 100000;
  }
}
