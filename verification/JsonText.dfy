/**
 * JSON text by sections 2 to 7 of RFC 8259, as a relation between texts and trees with every byte written out. Bytes
 * from 128 on stand for themselves: whether they are well-formed UTF-8 is not asked.
 */
module JsonText {
  import opened Bytes
  import opened Decimals
  import opened Trees

  /**
   * What may stand between tokens: nothing, what the printer puts there, or white space. Beyond RFC 8259 there are
   * texts with comments, and the loose texts that the parser takes as well: any byte up to 32 for white space, numbers
   * with a zero in front or without all of their digits, and in strings every byte but a quote, and any letter in an
   * escape.
   */
  datatype Layout = Compact | Formatted | Spaced | Commented | Loose

  /** What the formatted layout has at a place: nothing, a space, a tab, or a new line with so many tabs. */
  datatype Place = Nothing | Blank | Tab | Line(tabs: nat)

  predicate White(s: CString) {
    forall c | c in s :: c == 32 || c == 9 || c == 10 || c == 13
  }

  predicate Laid(s: CString, place: Place) {
    match place
    case Nothing => s == []
    case Blank => s == [32]
    case Tab => s == [9]
    case Line(tabs) => |s| == 1 + tabs && s[0] == 10 && forall i | 0 < i <= tabs :: s[i] == 9
  }

  /** From two slashes to the end of the line. */
  predicate LineComment(s: CString) {
    |s| >= 3 && s[..2] == [47, 47] && s[|s| - 1] == 10 && forall i | 0 <= i < |s| - 1 :: s[i] != 10
  }

  /** From slash and asterisk to the first asterisk and slash after them. */
  predicate BlockComment(s: CString) {
    && |s| >= 4 && s[..2] == [47, 42] && s[|s| - 2..] == [42, 47]
    && forall i | 2 <= i < |s| - 2 :: !(s[i] == 42 && s[i + 1] == 47)
  }

  /** `cJSON_Minify` takes the asterisk that opens a comment for the one that closes it when a slash follows. */
  predicate Comment(s: CString) {
    LineComment(s) || (BlockComment(s) && s[2] != 47)
  }

  ghost predicate Comments(s: CString) {
    || s == []
    || (White(s[..1]) && Comments(s[1..]))
    || exists k | 0 < k <= |s| :: Comment(s[..k]) && Comments(s[k..])
  }

  ghost predicate Gap(s: CString, layout: Layout, place: Place) {
    match layout
    case Compact => s == []
    case Formatted => Laid(s, place)
    case Spaced => White(s)
    case Commented => Comments(s)
    case Loose => forall c | c in s :: c <= 32
  }

  // ----- section 6: numbers

  function TenTo(k: nat): (r: real)
    ensures r > 0.0
  {
    if k == 0 then 1.0 else TenTo(k - 1) * 10.0
  }

  /** The digits before the point; loosely a zero may come first, and all may be missing. */
  predicate Whole(s: CString, loose: bool) {
    if loose then AllDigits(s) && (|s| > 1 && s[0] == 48 ==> s[1] != 48) else DigitRun(s) && (s[0] == 48 ==> |s| == 1)
  }

  predicate Fraction(s: CString) {
    s == [] || (s[0] == 46 && DigitRun(s[1..]))
  }

  /** How many bytes of an exponent come before its digits: `e` or `E`, and a sign. */
  function ExponentHead(s: CString): (k: nat)
    ensures s != [] ==> k <= |s|
  {
    if |s| >= 2 && (s[1] == 43 || s[1] == 45) then 2 else 1
  }

  /** Loosely an exponent needs no digits. */
  predicate Exponent(s: CString, loose: bool) {
    s == [] ||
    ((s[0] == 101 || s[0] == 69) && AllDigits(s[ExponentHead(s)..]) && (!loose ==> |s| > ExponentHead(s)))
  }

  function FractionValue(s: CString): real
    requires Fraction(s)
  {
    if s == [] then 0.0 else Weight(s[1..]) as real / TenTo(|s| - 1)
  }

  function Scale(s: CString): real
    requires Exponent(s, true)
  {
    if s == [] then 1.0
    else
      var power := TenTo(Weight(s[ExponentHead(s)..]));
      if |s| >= 2 && s[1] == 45 then 1.0 / power else power
  }

  /** The value of a number's parts. */
  function NumberOf(negative: bool, whole: CString, fraction: CString, exponent: CString): real
    requires AllDigits(whole) && Fraction(fraction) && Exponent(exponent, true)
  {
    (if negative then -1.0 else 1.0) * (Weight(whole) as real + FractionValue(fraction)) * Scale(exponent)
  }

  ghost predicate NumberText(text: CString, d: real, loose: bool) {
    exists minus: CString, whole: CString, fraction: CString, exponent: CString ::
      && text == minus + whole + fraction + exponent
      && (minus == [] || minus == [45]) && Whole(whole, loose) && Fraction(fraction) && Exponent(exponent, loose)
      && minus + whole != [] && d == NumberOf(minus != [], whole, fraction, exponent)
  }

  // ----- section 7: strings

  /** The byte that a two-character escape stands for, by its second character; 0 for none. */
  function Escaped(c: Char): byte {
    if c == 34 then 34
    else if c == 92 then 92
    else if c == 47 then 47
    else if c == 98 then 8
    else if c == 102 then 12
    else if c == 110 then 10
    else if c == 114 then 13
    else if c == 116 then 9
    else 0
  }

  function HexOf(c: Char): int {
    if 48 <= c <= 57 then Above(c, 48)
    else if 65 <= c <= 70 then Above(c, 55)
    else if 97 <= c <= 102 then Above(c, 87)
    else -1
  }

  /** Four hexadecimal digits at `i`. */
  predicate HasUnit(s: CString, i: nat) {
    i + 4 <= |s| && HexOf(s[i]) >= 0 && HexOf(s[i + 1]) >= 0 && HexOf(s[i + 2]) >= 0 && HexOf(s[i + 3]) >= 0
  }

  function UnitAt(s: CString, i: nat): nat
    requires HasUnit(s, i)
  {
    HexOf(s[i]) * 4096 + HexOf(s[i + 1]) * 256 + HexOf(s[i + 2]) * 16 + HexOf(s[i + 3])
  }

  /** The bytes are the UTF-8 form of the code point, RFC 3629 section 3. */
  predicate Utf8Of(b: CString, u: nat) {
    if u < 0x80 then |b| == 1 && b[0] == u
    else if u < 0x800 then
      |b| == 2 && 0x80 <= b[1] < 0xC0 && u == Above(b[0], 0xC0) * 0x40 + Above(b[1], 0x80)
    else if u < 0x10000 then
      && |b| == 3 && 0x80 <= b[1] < 0xC0 && 0x80 <= b[2] < 0xC0
      && u == Above(b[0], 0xE0) * 0x1000 + Above(b[1], 0x80) * 0x40 + Above(b[2], 0x80)
    else
      && |b| == 4 && 0x80 <= b[1] < 0xC0 && 0x80 <= b[2] < 0xC0 && 0x80 <= b[3] < 0xC0
      && u == Above(b[0], 0xF0) * 0x40000 + Above(b[1], 0x80) * 0x1000 + Above(b[2], 0x80) * 0x40 + Above(b[3], 0x80)
  }

  /** A `\u` escape, or the pair that a surrogate takes, at the start of `s`: the code point and the bytes it takes. */
  ghost predicate CodePoint(s: CString, u: nat, n: nat) {
    && HasUnit(s, 2) && s[..2] == [92, 117]
    && if 0xD800 <= UnitAt(s, 2) < 0xDC00 then
         && n == 12 && HasUnit(s, 8) && s[6..8] == [92, 117] && 0xDC00 <= UnitAt(s, 8) < 0xE000
         && u == 0x10000 + (UnitAt(s, 2) - 0xD800) * 0x400 + (UnitAt(s, 8) - 0xDC00)
       else
         n == 6 && u == UnitAt(s, 2) && !(0xDC00 <= u < 0xE000)
  }

  /** What stands between the quotes of a string literal, and the string. */
  ghost predicate Contents(body: CString, s: CString, loose: bool)
    decreases |body|
  {
    if body == [] then s == []
    else if body[0] != 92 then
      (loose || body[0] >= 32) && body[0] != 34 && s != [] && s[0] == body[0] && Contents(body[1..], s[1..], loose)
    else if |body| >= 2 && body[1] != 117 then
      && (loose || Escaped(body[1]) != 0) && s != []
      && s[0] == (if Escaped(body[1]) != 0 then Escaped(body[1]) else body[1])
      && Contents(body[2..], s[1..], loose)
    else
      exists u: nat, n: nat, k: nat :: CodePoint(body, u, n) && n <= |body| && k <= |s| && Utf8Of(s[..k], u) &&
        Contents(body[n..], s[k..], loose)
  }

  ghost predicate StringText(text: CString, s: CString, loose: bool) {
    |text| >= 2 && text[0] == 34 && text[|text| - 1] == 34 && Contents(text[1..|text| - 1], s, loose)
  }

  // ----- sections 3 to 5: values, objects and arrays

  ghost predicate Denotes(text: CString, t: Json, layout: Layout, depth: nat)
    decreases t, 0
  {
    match t
    case Null => text == [110, 117, 108, 108]
    case False => text == [102, 97, 108, 115, 101]
    case True => text == [116, 114, 117, 101]
    case Number(d) => NumberText(text, d, layout.Loose?)
    case String(s) => StringText(text, s, layout.Loose?)
    case Array(xs) =>
      && |text| >= 2 && text[0] == 91 && text[|text| - 1] == 93
      && if xs == [] then Gap(text[1..|text| - 1], layout, Nothing)
         else Items(text[1..|text| - 1], xs, layout, Nothing, depth + 1)
    case Object(ms) =>
      && |text| >= 2 && text[0] == 123 && text[|text| - 1] == 125
      && if ms == [] then Gap(text[1..|text| - 1], layout, Line(depth))
         else Fields(text[1..|text| - 1], ms, layout, depth + 1)
  }

  /** A value between gaps, and after a comma the rest of the items. */
  ghost predicate Items(s: CString, xs: seq<Json>, layout: Layout, lead: Place, depth: nat)
    requires xs != []
    decreases xs, 0
  {
    exists before: CString, value: CString, after: CString, rest: CString ::
      && s == before + value + after + rest
      && Gap(before, layout, lead) && Denotes(value, xs[0], layout, depth) && Gap(after, layout, Nothing)
      && if |xs| == 1 then rest == []
         else rest != [] && rest[0] == 44 && Items(rest[1..], xs[1..], layout, Blank, depth)
  }

  /** A name, a colon and a value. */
  ghost predicate Field(s: CString, m: Member, layout: Layout, depth: nat)
    decreases m, 1
  {
    exists name: CString, after: CString, before: CString, value: CString ::
      && s == name + after + [58] + before + value
      && StringText(name, m.name, layout.Loose?) && Gap(after, layout, Nothing) && Gap(before, layout, Tab)
      && Denotes(value, m.value, layout, depth)
  }

  /** A member between gaps, and after a comma the rest of the members. */
  ghost predicate Fields(s: CString, ms: seq<Member>, layout: Layout, depth: nat)
    requires ms != [] && depth > 0
    decreases ms, 0
  {
    exists before: CString, field: CString, after: CString, rest: CString ::
      && s == before + field + after + rest
      && Gap(before, layout, Line(depth)) && Field(field, ms[0], layout, depth)
      && Gap(after, layout, if |ms| == 1 then Line(depth - 1) else Nothing)
      && if |ms| == 1 then rest == []
         else rest != [] && rest[0] == 44 && Fields(rest[1..], ms[1..], layout, depth)
  }

  /** Section 2: a text is a value between gaps. */
  ghost predicate Text(s: CString, t: Json, layout: Layout) {
    exists before: CString, value: CString, after: CString ::
      && s == before + value + after
      && Gap(before, layout, Nothing) && Denotes(value, t, layout, 0) && Gap(after, layout, Nothing)
  }

  /** A literal that the end of the text cuts off. */
  ghost predicate Unclosed(text: CString, s: CString) {
    text != [] && text[0] == 34 && Contents(text[1..], s, true)
  }

  /** What the parser takes: loose text, or white space and a string that lacks its closing quote. */
  ghost predicate Accepted(s: CString, t: Json) {
    Text(s, t, Loose) ||
    (t.String? && exists before: CString, literal: CString ::
       s == before + literal && Gap(before, Loose, Nothing) && Unclosed(literal, t.s))
  }

  // ----- putting texts together and taking them apart

  lemma ItemsIntro(before: CString, value: CString, after: CString, rest: CString, xs: seq<Json>, layout: Layout,
                   lead: Place, depth: nat)
    requires xs != [] && Gap(before, layout, lead) && Denotes(value, xs[0], layout, depth)
    requires Gap(after, layout, Nothing)
    requires if |xs| == 1 then rest == []
             else rest != [] && rest[0] == 44 && Items(rest[1..], xs[1..], layout, Blank, depth)
    ensures Items(before + value + after + rest, xs, layout, lead, depth)
  {
    hide Gap;
    var s := before + value + after + rest;
    assert s == before + value + after + rest;
  }

  lemma FieldIntro(name: CString, after: CString, before: CString, value: CString, m: Member, layout: Layout,
                   depth: nat)
    requires StringText(name, m.name, layout.Loose?) && Gap(after, layout, Nothing) && Gap(before, layout, Tab)
    requires Denotes(value, m.value, layout, depth)
    ensures Field(name + after + [58] + before + value, m, layout, depth)
  {
    hide Gap, StringText, Denotes;
    var s := name + after + [58] + before + value;
    assert s == name + after + [58] + before + value;
  }

  lemma FieldsIntro(before: CString, field: CString, after: CString, rest: CString, ms: seq<Member>, layout: Layout,
                    depth: nat)
    requires ms != [] && depth > 0 && Gap(before, layout, Line(depth)) && Field(field, ms[0], layout, depth)
    requires Gap(after, layout, if |ms| == 1 then Line(depth - 1) else Nothing)
    requires if |ms| == 1 then rest == []
             else rest != [] && rest[0] == 44 && Fields(rest[1..], ms[1..], layout, depth)
    ensures Fields(before + field + after + rest, ms, layout, depth)
  {
    hide Gap, Field;
    var s := before + field + after + rest;
    assert s == before + field + after + rest;
  }

  lemma ItemsParts(s: CString, xs: seq<Json>, layout: Layout, lead: Place, depth: nat)
    returns (before: CString, value: CString, after: CString, rest: CString)
    requires xs != [] && Items(s, xs, layout, lead, depth)
    ensures s == before + value + after + rest
    ensures Gap(before, layout, lead) && Denotes(value, xs[0], layout, depth) && Gap(after, layout, Nothing)
    ensures if |xs| == 1 then rest == []
            else rest != [] && rest[0] == 44 && Items(rest[1..], xs[1..], layout, Blank, depth)
  {
    hide Gap, Denotes;
    before, value, after, rest :|
      && s == before + value + after + rest
      && Gap(before, layout, lead) && Denotes(value, xs[0], layout, depth) && Gap(after, layout, Nothing)
      && if |xs| == 1 then rest == []
         else rest != [] && rest[0] == 44 && Items(rest[1..], xs[1..], layout, Blank, depth);
  }

  lemma FieldParts(s: CString, m: Member, layout: Layout, depth: nat)
    returns (name: CString, after: CString, before: CString, value: CString)
    requires Field(s, m, layout, depth)
    ensures s == name + after + [58] + before + value
    ensures StringText(name, m.name, layout.Loose?) && Gap(after, layout, Nothing) && Gap(before, layout, Tab)
    ensures Denotes(value, m.value, layout, depth)
  {
    hide Gap, Denotes, StringText;
    name, after, before, value :|
      && s == name + after + [58] + before + value
      && StringText(name, m.name, layout.Loose?) && Gap(after, layout, Nothing) && Gap(before, layout, Tab)
      && Denotes(value, m.value, layout, depth);
  }

  lemma FieldsParts(s: CString, ms: seq<Member>, layout: Layout, depth: nat)
    returns (before: CString, field: CString, after: CString, rest: CString)
    requires ms != [] && depth > 0 && Fields(s, ms, layout, depth)
    ensures s == before + field + after + rest
    ensures Gap(before, layout, Line(depth)) && Field(field, ms[0], layout, depth)
    ensures Gap(after, layout, if |ms| == 1 then Line(depth - 1) else Nothing)
    ensures if |ms| == 1 then rest == []
            else rest != [] && rest[0] == 44 && Fields(rest[1..], ms[1..], layout, depth)
  {
    hide Gap, Field;
    before, field, after, rest :|
      && s == before + field + after + rest
      && Gap(before, layout, Line(depth)) && Field(field, ms[0], layout, depth)
      && Gap(after, layout, if |ms| == 1 then Line(depth - 1) else Nothing)
      && if |ms| == 1 then rest == []
         else rest != [] && rest[0] == 44 && Fields(rest[1..], ms[1..], layout, depth);
  }

  lemma TextParts(s: CString, t: Json, layout: Layout) returns (before: CString, value: CString, after: CString)
    requires Text(s, t, layout)
    ensures s == before + value + after
    ensures Gap(before, layout, Nothing) && Denotes(value, t, layout, 0) && Gap(after, layout, Nothing)
  {
    hide Gap, Denotes;
    before, value, after :|
      && s == before + value + after
      && Gap(before, layout, Nothing) && Denotes(value, t, layout, 0) && Gap(after, layout, Nothing);
  }

  // ----- the printer's layouts are RFC 8259's

  lemma GapSpaced(s: CString, layout: Layout, place: Place)
    requires Gap(s, layout, place) && layout in {Compact, Formatted, Spaced}
    ensures Gap(s, Spaced, place)
  {}

  /** What the printer's layouts allow, white space allows. */
  lemma {:induction false} Widens(text: CString, t: Json, layout: Layout, depth: nat)
    requires Denotes(text, t, layout, depth) && layout in {Compact, Formatted, Spaced}
    ensures Denotes(text, t, Spaced, depth)
    decreases t, 1
  {
    hide Gap, Items, Fields, NumberText, StringText;
    match t
    case Array(xs) =>
      if xs == [] {
        GapSpaced(text[1..|text| - 1], layout, Nothing);
      } else {
        ItemsWiden(text[1..|text| - 1], xs, layout, Nothing, depth + 1);
      }
    case Object(ms) =>
      if ms == [] {
        GapSpaced(text[1..|text| - 1], layout, Line(depth));
      } else {
        FieldsWiden(text[1..|text| - 1], ms, layout, depth + 1);
      }
    case _ =>
  }

  lemma {:induction false} ItemsWiden(s: CString, xs: seq<Json>, layout: Layout, lead: Place, depth: nat)
    requires xs != [] && Items(s, xs, layout, lead, depth) && layout in {Compact, Formatted, Spaced}
    ensures Items(s, xs, Spaced, lead, depth)
    decreases xs, 0
  {
    hide Gap, Items, Denotes;
    var before, value, after, rest := ItemsParts(s, xs, layout, lead, depth);
    GapSpaced(before, layout, lead);
    GapSpaced(after, layout, Nothing);
    Widens(value, xs[0], layout, depth);
    if |xs| > 1 {
      ItemsWiden(rest[1..], xs[1..], layout, Blank, depth);
    }
    ItemsIntro(before, value, after, rest, xs, Spaced, lead, depth);
  }

  lemma {:induction false} FieldWidens(s: CString, m: Member, layout: Layout, depth: nat)
    requires Field(s, m, layout, depth) && layout in {Compact, Formatted, Spaced}
    ensures Field(s, m, Spaced, depth)
    decreases m, 2
  {
    hide Gap, Field, Denotes;
    var name, after, before, value := FieldParts(s, m, layout, depth);
    GapSpaced(after, layout, Nothing);
    GapSpaced(before, layout, Tab);
    Widens(value, m.value, layout, depth);
    FieldIntro(name, after, before, value, m, Spaced, depth);
  }

  lemma {:induction false} FieldsWiden(s: CString, ms: seq<Member>, layout: Layout, depth: nat)
    requires ms != [] && depth > 0 && Fields(s, ms, layout, depth) && layout in {Compact, Formatted, Spaced}
    ensures Fields(s, ms, Spaced, depth)
    decreases ms, 0
  {
    hide Gap, Fields, Field;
    var before, field, after, rest := FieldsParts(s, ms, layout, depth);
    GapSpaced(before, layout, Line(depth));
    GapSpaced(after, layout, if |ms| == 1 then Line(depth - 1) else Nothing);
    FieldWidens(field, ms[0], layout, depth);
    if |ms| > 1 {
      FieldsWiden(rest[1..], ms[1..], layout, depth);
    }
    FieldsIntro(before, field, after, rest, ms, Spaced, depth);
  }
}
