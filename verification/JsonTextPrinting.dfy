/** Every printed text is JSON text that denotes its tree, formatted and unformatted. */
module JsonTextPrinting {
  import opened Bytes
  import opened Decimals
  import opened JsonText
  import opened Numerals
  import opened Printing
  import opened Strings
  import opened Trees

  function LayoutOf(fmt: bool): Layout {
    if fmt then Formatted else Compact
  }

  // ----- numbers and strings

  lemma NumberIntro(minus: CString, whole: CString, d: real)
    requires (minus == [] || minus == [45]) && Whole(whole, false)
    requires d == if minus == [] then Weight(whole) as real else -(Weight(whole) as real)
    ensures NumberText(minus + whole, d, false)
  {
    assert minus + whole == minus + whole + [] + [];
    assert FractionValue([]) == 0.0 && Scale([]) == 1.0;
  }

  lemma DecimalText(d: real)
    requires Int32(d)
    ensures NumberText(Decimal(d.Floor), d, false)
  {
    var n := d.Floor;
    var k: nat := if n < 0 then -n else n;
    DigitsWeigh(k);
    ReadDigitsBack(k, []);
    assert [] + Digits(k) == Digits(k);
    NumberIntro(if n < 0 then [45] else [], Digits(k), d);
  }

  lemma HexDigitOf(v: nat)
    requires v < 16
    ensures HexOf(HexDigit(v)) == v
  {}

  lemma UnitOf(c: Char, post: CString)
    requires c < 32
    ensures var e := [92, 117, 48, 48, HexDigit(c / 16), HexDigit(c % 16)] + post;
      CodePoint(e, c, 6)
  {
    var e := [92, 117, 48, 48, HexDigit(c / 16), HexDigit(c % 16)] + post;
    HexDigitOf(c / 16);
    HexDigitOf(c % 16);
    assert e[2] == 48 && e[3] == 48 && e[4] == HexDigit(c / 16) && e[5] == HexDigit(c % 16);
    assert e[..2] == [92, 117];
  }

  /** One byte, escaped, in front of escaped text. */
  lemma EscapedByte(c: Char, body: CString, s: CString)
    requires Contents(body, s, false)
    ensures Contents(EscapeByte(c) + body, [c] + s, false)
  {
    var e := EscapeByte(c);
    assert (e + body)[|e|..] == body && ([c] + s)[1..] == s;
    if |e| == 6 {
      assert e == [92, 117, 48, 48, HexDigit(c / 16), HexDigit(c % 16)];
      UnitOf(c, body);
      assert ([c] + s)[..1] == [c];
      assert Utf8Of([c], c);
      assert CodePoint(e + body, c, 6) && Utf8Of(([c] + s)[..1], c) && Contents((e + body)[6..], ([c] + s)[1..], false);
    }
  }

  lemma {:induction false} EscapeContents(s: CString)
    ensures Contents(Escape(s), s, false)
  {
    if s != [] {
      EscapeContents(s[1..]);
      EscapedByte(s[0], Escape(s[1..]), s[1..]);
      assert s == [s[0]] + s[1..];
    }
  }

  lemma QuotedText(s: CString)
    ensures StringText(Quoted(s), s, false)
  {
    EscapeContents(s);
    assert Quoted(s)[1..|Quoted(s)| - 1] == Escape(s);
  }

  // ----- gaps

  lemma NoGap(layout: Layout)
    ensures Gap([], layout, Nothing)
  {}

  lemma GapIf(fmt: bool, c: Char, place: Place)
    requires (c == 32 && place == Blank) || (c == 9 && place == Tab)
    ensures Gap(If(fmt, [c]), LayoutOf(fmt), place)
  {}

  lemma LineGap(fmt: bool, n: nat)
    ensures Gap(If(fmt, [NEWLINE]) + If(fmt, Tabs(n)), LayoutOf(fmt), Line(n))
  {}

  // ----- values

  /** The text between two brackets. */
  lemma Between(c: Char, inner: CString, d: Char)
    ensures var s := [c] + inner + [d];
      |s| >= 2 && s[0] == c && s[|s| - 1] == d && s[1..|s| - 1] == inner
  {}

  lemma {:induction false} PrintDenotes(t: Json, depth: nat, fmt: bool)
    requires Printable(t)
    ensures Denotes(Print(t, depth, fmt), t, LayoutOf(fmt), depth)
    decreases t, 0
  {
    hide NumberText, StringText, Gap, Items, Fields, Quoted, Decimal, If;
    match t
    case Null =>
    case False =>
    case True =>
    case Number(d) => DecimalText(d);
    case String(s) => QuotedText(s);
    case Array(xs) =>
      var inner := PrintItems(xs, depth + 1, fmt);
      Between(91, inner, 93);
      if xs == [] {
        NoGap(LayoutOf(fmt));
      } else {
        NoGap(LayoutOf(fmt));
        ItemsPrinted([], xs, Nothing, depth + 1, fmt);
        assert [] + inner == inner;
      }
    case Object(ms) =>
      var inner := If(fmt, [NEWLINE]) + PrintFields(ms, depth + 1, fmt) + If(fmt, Tabs(depth));
      ObjectBetween(ms, depth, fmt);
      Between(123, inner, 125);
      if ms == [] {
        LineGap(fmt, depth);
        assert If(fmt, [NEWLINE]) + [] == If(fmt, [NEWLINE]);
      } else {
        FieldsPrinted(ms, depth + 1, fmt);
      }
  }

  lemma ObjectBetween(ms: seq<Member>, depth: nat, fmt: bool)
    requires PrintableFields(ms)
    ensures Print(Object(ms), depth, fmt) ==
      [123] + (If(fmt, [NEWLINE]) + PrintFields(ms, depth + 1, fmt) + If(fmt, Tabs(depth))) + [125]
  {
    hide PrintFields, If, Tabs;
  }

  lemma {:induction false} ItemsPrinted(lead: CString, xs: seq<Json>, place: Place, depth: nat, fmt: bool)
    requires xs != [] && PrintableItems(xs) && Gap(lead, LayoutOf(fmt), place)
    ensures Items(lead + PrintItems(xs, depth, fmt), xs, LayoutOf(fmt), place, depth)
    decreases xs, 0
  {
    hide Gap, Items, Print, If, Denotes;
    var value := Print(xs[0], depth, fmt);
    PrintDenotes(xs[0], depth, fmt);
    NoGap(LayoutOf(fmt));
    var tail := If(fmt, [SPACE]) + PrintItems(xs[1..], depth, fmt);
    var rest := if |xs| == 1 then [] else [COMMA] + tail;
    if |xs| > 1 {
      GapIf(fmt, SPACE, Blank);
      ItemsPrinted(If(fmt, [SPACE]), xs[1..], Blank, depth, fmt);
      assert rest[1..] == tail;
    }
    ItemsIntro(lead, value, [], rest, xs, LayoutOf(fmt), place, depth);
    assert lead + PrintItems(xs, depth, fmt) == lead + value + [] + rest;
  }

  lemma FieldPrinted(m: Member, depth: nat, fmt: bool)
    requires Printable(m.value) && Denotes(Print(m.value, depth, fmt), m.value, LayoutOf(fmt), depth)
    ensures Field(Quoted(m.name) + [] + [58] + If(fmt, [TAB]) + Print(m.value, depth, fmt), m, LayoutOf(fmt), depth)
  {
    hide Gap, Field, Print, If, Denotes, Quoted, StringText;
    QuotedText(m.name);
    NoGap(LayoutOf(fmt));
    GapIf(fmt, TAB, Tab);
    FieldIntro(Quoted(m.name), [], If(fmt, [TAB]), Print(m.value, depth, fmt), m, LayoutOf(fmt), depth);
  }

  /** The printed members, from the line break before the first to the tabs before the closing brace. */
  lemma {:induction false} FieldsPrinted(ms: seq<Member>, depth: nat, fmt: bool)
    requires ms != [] && PrintableFields(ms) && depth > 0
    ensures var s := If(fmt, [NEWLINE]) + PrintFields(ms, depth, fmt) + If(fmt, Tabs(depth - 1));
      Fields(s, ms, LayoutOf(fmt), depth)
    decreases ms, 0
  {
    hide Gap, Fields, Field, Print, If, Denotes, Tabs, Quoted;
    var m := ms[0];
    PrintDenotes(m.value, depth, fmt);
    FieldPrinted(m, depth, fmt);
    LineGap(fmt, depth);
    LineGap(fmt, depth - 1);
    NoGap(LayoutOf(fmt));
    var before := If(fmt, [NEWLINE]) + If(fmt, Tabs(depth));
    var field := Quoted(m.name) + [] + [58] + If(fmt, [TAB]) + Print(m.value, depth, fmt);
    var tail := If(fmt, [NEWLINE]) + PrintFields(ms[1..], depth, fmt) + If(fmt, Tabs(depth - 1));
    var after := if |ms| == 1 then If(fmt, [NEWLINE]) + If(fmt, Tabs(depth - 1)) else [];
    var rest := if |ms| == 1 then [] else [COMMA] + tail;
    if |ms| > 1 {
      FieldsPrinted(ms[1..], depth, fmt);
      assert rest[1..] == tail;
    }
    FieldsIntro(before, field, after, rest, ms, LayoutOf(fmt), depth);
    FieldsJoin(ms, depth, fmt);
  }

  lemma FieldsJoin(ms: seq<Member>, depth: nat, fmt: bool)
    requires ms != [] && PrintableFields(ms) && depth > 0
    ensures var m, tabs := ms[0], If(fmt, Tabs(depth - 1));
      var before := If(fmt, [NEWLINE]) + If(fmt, Tabs(depth));
      var field := Quoted(m.name) + [] + [58] + If(fmt, [TAB]) + Print(m.value, depth, fmt);
      If(fmt, [NEWLINE]) + PrintFields(ms, depth, fmt) + tabs ==
      if |ms| == 1 then before + field + (If(fmt, [NEWLINE]) + tabs) + []
      else before + field + [] + ([COMMA] + (If(fmt, [NEWLINE]) + PrintFields(ms[1..], depth, fmt) + tabs))
  {
    hide Print, If, Tabs, Quoted;
    var m, line, t, tabs := ms[0], If(fmt, [NEWLINE]), If(fmt, Tabs(depth)), If(fmt, Tabs(depth - 1));
    var name, gap, value := Quoted(m.name), If(fmt, [TAB]), Print(m.value, depth, fmt);
    var field := name + [] + [58] + gap + value;
    FieldParts(t, name, gap, value, if |ms| > 1 then [COMMA] else [], line);
    if |ms| == 1 {
      JoinLast(line, t, field, tabs);
    } else {
      JoinMore(line, t, field, PrintFields(ms[1..], depth, fmt), tabs);
    }
  }

  lemma FieldParts(t: CString, name: CString, gap: CString, value: CString, comma: CString, line: CString)
    ensures t + name + [58] + gap + value + (comma + line) == t + (name + [] + [58] + gap + value) + (comma + line)
  {
    assert name + [] == name;
    assert t + (name + [58] + gap + value) == t + name + [58] + gap + value;
  }

  lemma JoinLast(line: CString, t: CString, f: CString, tabs: CString)
    ensures line + (t + f + ([] + line) + []) + tabs == line + t + f + (line + tabs) + []
  {
    assert t + f + ([] + line) + [] == t + f + line;
  }

  lemma JoinMore(line: CString, t: CString, f: CString, p: CString, tabs: CString)
    ensures line + (t + f + ([44] + line) + p) + tabs == line + t + f + [] + ([44] + (line + p + tabs))
  {
    assert t + f + ([44] + line) + p == t + f + [44] + line + p;
  }

  /** The text that the printers write, in both formats, is JSON text for the tree, byte for byte of the layout. */
  lemma PrintIsJson(t: Json, fmt: bool)
    requires Printable(t)
    ensures Text(Print(t, 0, fmt), t, LayoutOf(fmt)) && Text(Print(t, 0, fmt), t, Spaced)
  {
    hide Denotes, Print, Gap;
    NoGap(LayoutOf(fmt));
    NoGap(Spaced);
    PrintDenotes(t, 0, fmt);
    Widens(Print(t, 0, fmt), t, LayoutOf(fmt), 0);
    assert Print(t, 0, fmt) == [] + Print(t, 0, fmt) + [];
  }
}
