/** The recursive-descent parser, as functions from the text that is left to the text that is left over. */
module Parsing {
  import opened Bytes
  import opened Numerals
  import opened Printing
  import opened Strings
  import opened Trees

  /**
   * A failure carries the text at the error position. `Overrun` is the scan of a string literal stepping
   * over the terminator, when the text ends in the middle of an escape.
   */
  datatype Parse<+T> = Parsed(value: T, rest: CString) | Failed(at: CString) | Overrun

  /** `skip`: jumps over bytes up to 32. */
  function Skip(s: CString): (r: CString)
    ensures |r| <= |s| && (r == [] || r[0] > 32)
  {
    if s != [] && s[0] <= 32 then Skip(s[1..]) else s
  }

  /** `pow(10.0, k)`, without rounding. */
  function Pow10(k: int): real
    decreases if k < 0 then -k else k
  {
    if k == 0 then 1.0 else if k > 0 then Pow10(k - 1) * 10.0 else Pow10(k + 1) / 10.0
  }

  function Exponent(s: CString): (r: (int, CString))
    ensures |r.1| <= |s|
  {
    if At(s, 0) == 101 || At(s, 0) == 69 then
      var t := s[1..];
      if At(t, 0) == MINUS then
        var (n, rest) := ReadDigits(t[1..], 0);
        (-(n as int), rest)
      else
        ReadDigits(if At(t, 0) == 43 then t[1..] else t, 0)
    else (0, s)
  }

  function Scaled(negative: bool, n: nat, exponent: int): real {
    (if negative then -1.0 else 1.0) * n as real * Pow10(exponent)
  }

  predicate NumberStart(s: CString) {
    At(s, 0) == MINUS || IsDigit(At(s, 0))
  }

  /** The text after a `c` that may start it. */
  function DropByte(s: CString, c: Char): (r: CString)
    ensures |r| <= |s|
  {
    if At(s, 0) == c then s[1..] else s
  }

  /** The sign is skipped, then one zero, then the digits up to the fraction. */
  function WholePart(s: CString): (r: (nat, CString))
    ensures |r.1| <= |s| && (NumberStart(s) ==> |r.1| < |s|)
  {
    var s2 := DropByte(DropByte(s, MINUS), ZERO);
    if IsDigit(At(s2, 0)) && At(s2, 0) != ZERO then ReadDigits(s2[1..], s2[0] - ZERO) else (0, s2)
  }

  /** The digits after a point, read onto `n`, and the scale they give. */
  function Fraction(s: CString, n: nat): (r: (nat, CString, int))
    ensures |r.1| <= |s|
  {
    if At(s, 0) == DOT && IsDigit(At(s, 1)) then
      var (n1, rest) := ReadDigits(s[1..], n);
      (n1, rest, |rest| - |s[1..]|)
    else (n, s, 0)
  }

  function ParseNumber(s: CString): (r: Parse<Json>)
    requires NumberStart(s)
    ensures r.Parsed? && |r.rest| < |s|
  {
    var (n3, s3) := WholePart(s);
    var (n4, s4, scale) := Fraction(s3, n3);
    var (subscale, s5) := Exponent(s4);
    Parsed(Number(Scaled(At(s, 0) == MINUS, n4, scale + subscale)), s5)
  }

  /** `parse_string`. A literal that the end of the text cuts off is accepted. */
  function ParseString(s: CString): (r: Parse<CString>)
    ensures r.Parsed? ==> |r.rest| < |s|
  {
    if At(s, 0) != QUOTE then Failed(s)
    else
      ScanWithin(s[1..]);
      match Scan(s[1..])
      case None => Overrun
      case Some((n, _)) =>
        match Decode(s[1..][..n])
        case None => Failed(s)
        case Some(out) =>
          var rest := s[1..][n..];
          Parsed(out, if At(rest, 0) == QUOTE then rest[1..] else rest)
  }

  function ParseValue(s: CString): (r: Parse<Json>)
    ensures r.Parsed? ==> |r.rest| < |s|
    decreases |s|, 0
  {
    if NULL_TEXT <= s then Parsed(Null, s[4..])
    else if FALSE_TEXT <= s then Parsed(False, s[5..])
    else if TRUE_TEXT <= s then Parsed(True, s[4..])
    else if At(s, 0) == QUOTE then
      match ParseString(s)
      case Parsed(v, rest) => Parsed(String(v), rest)
      case Failed(at) => Failed(at)
      case Overrun => Overrun
    else if NumberStart(s) then ParseNumber(s)
    else if At(s, 0) == LBRACKET then
      var t := Skip(s[1..]);
      if At(t, 0) == RBRACKET then Parsed(Array([]), t[1..])
      else
        match ParseItems(t)
        case Parsed(xs, rest) => Parsed(Array(xs), rest)
        case Failed(at) => Failed(at)
        case Overrun => Overrun
    else if At(s, 0) == LBRACE then
      var t := Skip(s[1..]);
      if At(t, 0) == RBRACE then Parsed(Object([]), t[1..])
      else
        match ParseFields(t)
        case Parsed(ms, rest) => Parsed(Object(ms), rest)
        case Failed(at) => Failed(at)
        case Overrun => Overrun
    else Failed(s)
  }

  /** The items of an array and its closing bracket. */
  function ParseItems(s: CString): (r: Parse<seq<Json>>)
    ensures r.Parsed? ==> |r.rest| < |s|
    decreases |s|, 1
  {
    match ParseValue(Skip(s))
    case Failed(at) => Failed(at)
    case Overrun => Overrun
    case Parsed(x, rest) =>
      var t := Skip(rest);
      if At(t, 0) == COMMA then
        match ParseItems(t[1..])
        case Parsed(xs, rest') => Parsed([x] + xs, rest')
        case Failed(at) => Failed(at)
        case Overrun => Overrun
      else if At(t, 0) == RBRACKET then Parsed([x], t[1..])
      else Failed(t)
  }

  /** A name, a colon and a value, and the white space around them. */
  function ParseField(s: CString): (r: Parse<Member>)
    ensures r.Parsed? ==> |r.rest| < |s|
    decreases |s|, 1
  {
    match ParseString(Skip(s))
    case Failed(at) => Failed(at)
    case Overrun => Overrun
    case Parsed(name, rest) =>
      var t := Skip(rest);
      if At(t, 0) != COLON then Failed(t)
      else
        match ParseValue(Skip(t[1..]))
        case Failed(at) => Failed(at)
        case Overrun => Overrun
        case Parsed(v, rest') => Parsed(Member(name, v), Skip(rest'))
  }

  /** The members of an object and its closing brace. */
  function ParseFields(s: CString): (r: Parse<seq<Member>>)
    ensures r.Parsed? ==> |r.rest| < |s|
    decreases |s|, 2
  {
    match ParseField(s)
    case Failed(at) => Failed(at)
    case Overrun => Overrun
    case Parsed(m, t) =>
      if At(t, 0) == COMMA then
        match ParseFields(t[1..])
        case Parsed(ms, rest) => Parsed([m] + ms, rest)
        case Failed(at) => Failed(at)
        case Overrun => Overrun
      else if At(t, 0) == RBRACE then Parsed([m], t[1..])
      else Failed(t)
  }

  /** `cJSON_ParseWithOpts`. */
  function ParseDocument(s: CString, wholeText: bool): Parse<Json> {
    match ParseValue(Skip(s))
    case Failed(at) => Failed(at)
    case Overrun => Overrun
    case Parsed(t, rest) =>
      if !wholeText then Parsed(t, rest)
      else if Skip(rest) != [] then Failed(Skip(rest))
      else Parsed(t, [])
  }

  // ----- parsing undoes printing

  /** Text that can follow a number without becoming part of it. */
  predicate EndsNumber(s: CString) {
    !IsDigit(At(s, 0)) && At(s, 0) != DOT && At(s, 0) != 101 && At(s, 0) != 69
  }

  lemma WholeDecimal(n: int, post: CString)
    requires EndsNumber(post)
    ensures NumberStart(Decimal(n) + post) && (At(Decimal(n) + post, 0) == MINUS <==> n < 0)
    ensures WholePart(Decimal(n) + post) == (if n < 0 then -n else n, post)
  {
    var k: nat := if n < 0 then -n else n;
    var s, t := Decimal(n) + post, Digits(k) + post;
    ReadDigitsBack(k, post);
    assert s == if n < 0 then [MINUS] + t else t;
    assert t[0] == Digits(k)[0];
    if k == 0 {
      assert t[1..] == post;
    }
  }

  lemma ParseDecimal(d: real, post: CString)
    requires Int32(d) && EndsNumber(post)
    ensures NumberStart(Decimal(d.Floor) + post)
    ensures ParseNumber(Decimal(d.Floor) + post) == Parsed(Number(d), post)
  {
    hide WholePart, ReadDigits, Digits, Decimal;
    WholeDecimal(d.Floor, post);
    assert Pow10(0) == 1.0;
  }

  /** The first byte of a printed value: never white space, a bracket that closes, or a comma. */
  predicate ValueStart(c: byte) {
    c > 32 && c != RBRACKET && c != RBRACE && c != COMMA
  }

  lemma PrintStart(t: Json, depth: nat, fmt: bool)
    requires Printable(t)
    ensures Print(t, depth, fmt) != [] && ValueStart(Print(t, depth, fmt)[0])
  {
    match t
    case Number(d) =>
      ReadDigitsBack(if d.Floor < 0 then -d.Floor else d.Floor, []);
    case _ =>
  }

  lemma {:induction false} SkipTabs(n: nat, post: CString)
    ensures Skip(Tabs(n) + post) == Skip(post)
  {
    if n > 0 {
      SkipTabs(n - 1, post);
      assert (Tabs(n) + post)[1..] == Tabs(n - 1) + post;
    } else {
      assert Tabs(n) + post == post;
    }
  }

  lemma SkipIf(fmt: bool, s: CString, post: CString)
    requires |s| == 1 && s[0] <= 32
    ensures Skip(If(fmt, s) + post) == Skip(post)
  {
    assert (s + post)[1..] == post;
    assert [] + post == post;
  }

  lemma ParseQuoted(s: CString, post: CString)
    ensures ParseString(Quoted(s) + post) == Parsed(s, post)
  {
    hide Escape, Scan, Decode;
    var text := Quoted(s) + post;
    var e, more := Escape(s), [QUOTE] + post;
    ScanEscape(s, post);
    DecodeEscape(s);
    assert text[1..] == e + [QUOTE] + post == e + more;
    assert (e + more)[..|e|] == e && (e + more)[|e|..] == more;
    assert more[1..] == post;
  }

  /** Parsing the printed text gives the tree back and consumes exactly that text. */
  lemma {:induction false} ParsePrint(t: Json, depth: nat, fmt: bool, post: CString)
    requires Printable(t) && EndsNumber(post)
    ensures ParseValue(Print(t, depth, fmt) + post) == Parsed(t, post)
    decreases t
  {
    var text := Print(t, depth, fmt) + post;
    match t
    case Null => assert text[4..] == post;
    case True => assert text[4..] == post;
    case False => assert text[5..] == post && text[0] != NULL_TEXT[0];
    case Number(d) =>
      PrintStart(t, depth, fmt);
      ParseDecimal(d, post);
    case String(s) => ParseQuoted(s, post);
    case Array(xs) =>
      if xs != [] {
        ParsePrintItems(xs, depth + 1, fmt, post);
      }
      ParsePrintArray(xs, depth, fmt, post);
    case Object(ms) =>
      if ms != [] {
        ParsePrintFields(ms, depth, fmt, post);
      }
      ParsePrintObject(ms, depth, fmt, post);
  }

  lemma ParseBracketed(s: CString, xs: seq<Json>, post: CString)
    requires At(s, 0) == LBRACKET
    requires var t := Skip(s[1..]);
      if At(t, 0) == RBRACKET then xs == [] && post == t[1..] else ParseItems(t) == Parsed(xs, post)
    ensures ParseValue(s) == Parsed(Array(xs), post)
  {
    hide ParseFields, ParseItems;
    assert s[0] != NULL_TEXT[0] && s[0] != TRUE_TEXT[0] && s[0] != FALSE_TEXT[0];
  }

  lemma ParsePrintArray(xs: seq<Json>, depth: nat, fmt: bool, post: CString)
    requires PrintableItems(xs)
    requires var text := PrintItems(xs, depth + 1, fmt) + ([RBRACKET] + post);
      xs == [] || (ParseItems(text) == Parsed(xs, post) && Skip(text) == text)
    ensures ParseValue(Print(Array(xs), depth, fmt) + post) == Parsed(Array(xs), post)
  {
    hide ParseValue, ParseItems, ParseFields;
    var text := Print(Array(xs), depth, fmt) + post;
    var inner := PrintItems(xs, depth + 1, fmt) + ([RBRACKET] + post);
    assert text[0] == LBRACKET && text[1..] == inner;
    assert ([RBRACKET] + post)[1..] == post;
    if xs != [] {
      PrintStart(xs[0], depth + 1, fmt);
    } else {
      assert inner == [RBRACKET] + post;
    }
    ParseBracketed(text, xs, post);
  }

  lemma ObjectText(ms: seq<Member>, depth: nat, fmt: bool, post: CString)
    requires PrintableFields(ms)
    ensures Print(Object(ms), depth, fmt) + post ==
      [LBRACE] + (If(fmt, [NEWLINE]) + (PrintFields(ms, depth + 1, fmt) + (If(fmt, Tabs(depth)) + [RBRACE] + post)))
  {
    hide PrintFields, If, Tabs;
  }

  lemma NoFields(depth: nat, fmt: bool, close: CString)
    ensures PrintFields([], depth + 1, fmt) + close == close
  {}

  lemma ParseBraced(s: CString, ms: seq<Member>, post: CString)
    requires At(s, 0) == LBRACE
    requires var t := Skip(s[1..]);
      if At(t, 0) == RBRACE then ms == [] && post == t[1..] else ParseFields(t) == Parsed(ms, post)
    ensures ParseValue(s) == Parsed(Object(ms), post)
  {
    hide ParseFields, ParseItems;
    assert s[0] != NULL_TEXT[0] && s[0] != TRUE_TEXT[0] && s[0] != FALSE_TEXT[0];
  }

  lemma ParsePrintObject(ms: seq<Member>, depth: nat, fmt: bool, post: CString)
    requires PrintableFields(ms)
    requires var text := PrintFields(ms, depth + 1, fmt) + (If(fmt, Tabs(depth)) + [RBRACE] + post);
      ms == [] || (ParseFields(text) == Parsed(ms, post) && At(Skip(text), 0) == QUOTE)
    ensures ParseValue(Print(Object(ms), depth, fmt) + post) == Parsed(Object(ms), post)
  {
    hide ParseValue, ParseFields, Print, PrintFields;
    var close := If(fmt, Tabs(depth)) + [RBRACE] + post;
    var inner := PrintFields(ms, depth + 1, fmt) + close;
    var text := [LBRACE] + (If(fmt, [NEWLINE]) + inner);
    ObjectText(ms, depth, fmt, post);
    assert text[1..] == If(fmt, [NEWLINE]) + inner;
    SkipIf(fmt, [NEWLINE], inner);
    SkipClose(depth, fmt, post);
    ParseFieldsSkips(Skip(inner), inner);
    if ms == [] {
      NoFields(depth, fmt, close);
    }
    ParseBraced(text, ms, post);
  }

  lemma SkipClose(depth: nat, fmt: bool, post: CString)
    ensures Skip(If(fmt, Tabs(depth)) + [RBRACE] + post) == [RBRACE] + post
    ensures ([RBRACE] + post)[1..] == post
  {
    if fmt {
      SkipTabs(depth, [RBRACE] + post);
      assert Tabs(depth) + [RBRACE] + post == Tabs(depth) + ([RBRACE] + post);
    } else {
      assert [] + [RBRACE] + post == [RBRACE] + post;
    }
  }

  lemma ParseLastItem(s: CString, x: Json, rest: CString)
    requires ParseValue(Skip(s)) == Parsed(x, rest) && At(Skip(rest), 0) == RBRACKET
    ensures ParseItems(s) == Parsed([x], Skip(rest)[1..])
  {}

  lemma ParseMoreItems(s: CString, x: Json, rest: CString, xs: seq<Json>, post: CString)
    requires ParseValue(Skip(s)) == Parsed(x, rest) && At(Skip(rest), 0) == COMMA
    requires ParseItems(Skip(rest)[1..]) == Parsed(xs, post)
    ensures ParseItems(s) == Parsed([x] + xs, post)
  {}

  lemma ItemsText(xs: seq<Json>, depth: nat, fmt: bool, close: CString)
    requires xs != [] && PrintableItems(xs)
    ensures var rest := PrintItems(xs[1..], depth, fmt) + close;
      PrintItems(xs, depth, fmt) + close ==
      Print(xs[0], depth, fmt) + (if |xs| == 1 then close else [COMMA] + (If(fmt, [SPACE]) + rest))
  {
    hide Print;
    var v, sep, tail := Print(xs[0], depth, fmt), ItemSeparator(|xs| > 1, fmt), PrintItems(xs[1..], depth, fmt);
    assert v + sep + tail + close == v + (sep + (tail + close));
    if |xs| == 1 {
      assert sep + (tail + close) == close;
    } else {
      assert sep + (tail + close) == [COMMA] + (If(fmt, [SPACE]) + (tail + close));
    }
  }

  lemma {:induction false} ParsePrintItems(xs: seq<Json>, depth: nat, fmt: bool, post: CString)
    requires xs != [] && PrintableItems(xs)
    ensures var text := PrintItems(xs, depth, fmt) + ([RBRACKET] + post);
      ParseItems(text) == Parsed(xs, post) && Skip(text) == text
    decreases xs
  {
    hide ParseItems, ParseValue, Print, PrintItems;
    var close := [RBRACKET] + post;
    var rest := PrintItems(xs[1..], depth, fmt) + close;
    var more := if |xs| == 1 then close else [COMMA] + (If(fmt, [SPACE]) + rest);
    var text := PrintItems(xs, depth, fmt) + close;
    ItemsText(xs, depth, fmt, close);
    PrintStart(xs[0], depth, fmt);
    ParsePrint(xs[0], depth, fmt, more);
    if |xs| == 1 {
      ParseLastItem(text, xs[0], more);
      assert close[1..] == post && xs == [xs[0]];
    } else {
      assert more[1..] == If(fmt, [SPACE]) + rest;
      SkipIf(fmt, [SPACE], rest);
      ParsePrintItems(xs[1..], depth, fmt, post);
      ParseItemsSkips(more[1..], rest);
      ParseMoreItems(text, xs[0], more, xs[1..], post);
      assert xs == [xs[0]] + xs[1..];
    }
  }

  lemma ParseItemsSkips(s: CString, t: CString)
    requires Skip(s) == Skip(t)
    ensures ParseItems(s) == ParseItems(t)
  {}

  lemma ParseFieldsSkips(s: CString, t: CString)
    requires Skip(s) == Skip(t)
    ensures ParseFields(s) == ParseFields(t)
  {
    assert ParseField(s) == ParseField(t);
  }

  lemma FieldText(m: Member, more: bool, depth: nat, fmt: bool, rest: CString)
    requires Printable(m.value)
    ensures PrintField(m, more, depth, fmt) + rest ==
      If(fmt, Tabs(depth)) + (Quoted(m.name) + ([COLON] + (If(fmt, [TAB]) +
        (Print(m.value, depth, fmt) + (FieldSeparator(more, fmt) + rest)))))
  {
    hide Print, FieldSeparator, If, Tabs, Quoted;
  }

  lemma ParsePrintField(m: Member, more: bool, depth: nat, fmt: bool, rest: CString)
    requires Printable(m.value) && EndsNumber(FieldSeparator(more, fmt) + rest)
    requires var after := FieldSeparator(more, fmt) + rest;
      ParseValue(Print(m.value, depth, fmt) + after) == Parsed(m.value, after)
    ensures var text := PrintField(m, more, depth, fmt) + rest;
      && ParseField(text) == Parsed(m, Skip(FieldSeparator(more, fmt) + rest))
      && At(Skip(text), 0) == QUOTE
  {
    hide ParseValue, Print, FieldSeparator, ParseString;
    var after := FieldSeparator(more, fmt) + rest;
    var value := Print(m.value, depth, fmt) + after;
    var colon := [COLON] + (If(fmt, [TAB]) + value);
    FieldText(m, more, depth, fmt, rest);
    var text := If(fmt, Tabs(depth)) + (Quoted(m.name) + colon);
    if fmt {
      SkipTabs(depth, Quoted(m.name) + colon);
    } else {
      assert text == Quoted(m.name) + colon;
    }
    ParseQuoted(m.name, colon);
    assert Skip(colon) == colon && colon[1..] == If(fmt, [TAB]) + value;
    SkipIf(fmt, [TAB], value);
    PrintStart(m.value, depth, fmt);
    assert Skip(value) == value;
  }

  lemma ParseLastField(s: CString, m: Member, t: CString)
    requires ParseField(s) == Parsed(m, t) && At(t, 0) == RBRACE
    ensures ParseFields(s) == Parsed([m], t[1..])
  {}

  lemma ParseMoreFields(s: CString, m: Member, t: CString, ms: seq<Member>, post: CString)
    requires ParseField(s) == Parsed(m, t) && At(t, 0) == COMMA && ParseFields(t[1..]) == Parsed(ms, post)
    ensures ParseFields(s) == Parsed([m] + ms, post)
  {}

  lemma SeparatorSkips(more: bool, fmt: bool, rest: CString)
    requires EndsNumber(rest)
    ensures EndsNumber(FieldSeparator(more, fmt) + rest)
    ensures var t := Skip(FieldSeparator(more, fmt) + rest);
      if more then At(t, 0) == COMMA && Skip(t[1..]) == Skip(rest) else t == Skip(rest)
  {
    var after := FieldSeparator(more, fmt) + rest;
    SkipIf(fmt, [NEWLINE], rest);
    if more {
      assert after == [COMMA] + (If(fmt, [NEWLINE]) + rest);
      assert after[1..] == If(fmt, [NEWLINE]) + rest;
    } else {
      assert after == If(fmt, [NEWLINE]) + rest;
    }
  }

  lemma FieldsText(ms: seq<Member>, depth: nat, fmt: bool, close: CString)
    requires ms != [] && PrintableFields(ms)
    ensures PrintFields(ms, depth, fmt) + close ==
      PrintField(ms[0], |ms| > 1, depth, fmt) + (PrintFields(ms[1..], depth, fmt) + close)
  {
    hide PrintField;
  }

  /** One member off the front: the parser's step on the printed list. */
  lemma ParseFieldsStep(ms: seq<Member>, depth: nat, fmt: bool, rest: CString, post: CString)
    requires ms != [] && PrintableFields(ms) && EndsNumber(rest)
    requires if |ms| > 1 then ParseFields(rest) == Parsed(ms[1..], post) else Skip(rest) == [RBRACE] + post
    requires var after := FieldSeparator(|ms| > 1, fmt) + rest;
      ParseValue(Print(ms[0].value, depth, fmt) + after) == Parsed(ms[0].value, after)
    ensures var text := PrintField(ms[0], |ms| > 1, depth, fmt) + rest;
      ParseFields(text) == Parsed(ms, post) && At(Skip(text), 0) == QUOTE
  {
    hide ParseFields, ParseField, ParseValue, Print, PrintField, FieldSeparator;
    var m, more := ms[0], |ms| > 1;
    var text := PrintField(m, more, depth, fmt) + rest;
    var t := Skip(FieldSeparator(more, fmt) + rest);
    SeparatorSkips(more, fmt, rest);
    ParsePrintField(m, more, depth, fmt, rest);
    if more {
      ParseFieldsSkips(t[1..], rest);
      ParseMoreFields(text, m, t, ms[1..], post);
      assert ms == [m] + ms[1..];
    } else {
      ParseLastField(text, m, t);
      assert ms == [m] && t[1..] == post;
    }
  }

  lemma {:induction false} ParsePrintFields(ms: seq<Member>, depth: nat, fmt: bool, post: CString)
    requires ms != [] && PrintableFields(ms)
    ensures var text := PrintFields(ms, depth + 1, fmt) + (If(fmt, Tabs(depth)) + [RBRACE] + post);
      ParseFields(text) == Parsed(ms, post) && At(Skip(text), 0) == QUOTE
    decreases ms
  {
    hide ParseFields, ParseField, ParseValue, Print, PrintField, FieldSeparator;
    var close := If(fmt, Tabs(depth)) + [RBRACE] + post;
    var rest := PrintFields(ms[1..], depth + 1, fmt) + close;
    SkipClose(depth, fmt, post);
    if |ms| > 1 {
      ParsePrintFields(ms[1..], depth, fmt, post);
    } else {
      NoFields(depth, fmt, close);
    }
    RestEndsNumber(rest);
    SeparatorSkips(|ms| > 1, fmt, rest);
    ParsePrint(ms[0].value, depth + 1, fmt, FieldSeparator(|ms| > 1, fmt) + rest);
    ParseFieldsStep(ms, depth + 1, fmt, rest, post);
    FieldsText(ms, depth + 1, fmt, close);
  }

  /** Text that is white space up to a quote or a closing brace ends a number. */
  lemma RestEndsNumber(s: CString)
    requires At(Skip(s), 0) == QUOTE || At(Skip(s), 0) == RBRACE
    ensures EndsNumber(s)
  {
    assert s == [] || s[0] <= 32 || Skip(s) == s;
  }

  /** What the printers write, the parser reads back: the same tree and nothing left over. */
  lemma PrintParseRoundTrip(t: Json, fmt: bool, wholeText: bool)
    requires Printable(t)
    ensures ParseDocument(Print(t, 0, fmt), wholeText) == Parsed(t, [])
  {
    PrintStart(t, 0, fmt);
    ParsePrint(t, 0, fmt, []);
    assert Print(t, 0, fmt) + [] == Print(t, 0, fmt);
  }

  // ----- the parser stays inside the text

  predicate Tail(r: CString, s: CString) {
    |r| <= |s| && r == s[|s| - |r|..]
  }

  /** A backslash is the last byte before the terminator. */
  predicate EndsInBackslash(s: CString) {
    s != [] && s[|s| - 1] == BACKSLASH
  }

  /** What is left over and what an error points at lie in the text; only a final backslash leads beyond it. */
  predicate Inside<T>(s: CString, r: Parse<T>) {
    match r
    case Parsed(_, rest) => Tail(rest, s)
    case Failed(at) => Tail(at, s)
    case Overrun => EndsInBackslash(s)
  }

  lemma TailDrop(s: CString, k: nat)
    requires k <= |s|
    ensures Tail(s[k..], s) && Tail(s, s)
  {}

  lemma TailJoins(r: CString, t: CString, s: CString)
    requires Tail(r, t) && Tail(t, s)
    ensures Tail(r, s)
  {
    assert t[|t| - |r|..] == s[|s| - |r|..];
  }

  /** Dropping a byte leads from one tail to another. */
  lemma TailIf(drop: bool, t: CString, s: CString)
    requires Tail(t, s) && (drop ==> t != [])
    ensures Tail(if drop then t[1..] else t, s)
  {
    if drop {
      TailJoins(t[1..], t, s);
    }
  }

  lemma DropByteTail(t: CString, c: Char, s: CString)
    requires Tail(t, s)
    ensures Tail(DropByte(t, c), s)
  {
    TailIf(At(t, 0) == c, t, s);
  }

  lemma {:induction false} SkipTail(s: CString)
    ensures Tail(Skip(s), s)
  {
    if s != [] && s[0] <= 32 {
      SkipTail(s[1..]);
      TailJoins(Skip(s), s[1..], s);
    }
  }

  lemma SkipOf(t: CString, s: CString)
    requires Tail(t, s)
    ensures Tail(Skip(t), s)
  {
    SkipTail(t);
    TailJoins(Skip(t), t, s);
  }

  lemma InsideTail<T>(t: CString, r: Parse<T>, s: CString)
    requires Inside(t, r) && Tail(t, s)
    ensures Inside(s, r)
  {
    match r
    case Parsed(_, rest) => TailJoins(rest, t, s);
    case Failed(at) => TailJoins(at, t, s);
    case Overrun =>
  }

  lemma {:induction false} DigitsTail(s: CString, n: nat)
    ensures Tail(ReadDigits(s, n).1, s)
  {
    if s != [] && IsDigit(s[0]) {
      DigitsTail(s[1..], n * 10 + (s[0] - ZERO));
      TailJoins(ReadDigits(s, n).1, s[1..], s);
    }
  }

  /** The digits after a first one other than zero. */
  lemma FirstDigitTail(t: CString, s: CString)
    requires Tail(t, s)
    ensures Tail((if IsDigit(At(t, 0)) && At(t, 0) != ZERO then ReadDigits(t[1..], t[0] - ZERO) else (0, t)).1, s)
  {
    hide ReadDigits, Tail;
    if IsDigit(At(t, 0)) && At(t, 0) != ZERO {
      TailIf(true, t, s);
      DigitsTail(t[1..], t[0] - ZERO);
      TailJoins(ReadDigits(t[1..], t[0] - ZERO).1, t[1..], s);
    }
  }

  lemma WholePartTail(s: CString)
    ensures Tail(WholePart(s).1, s)
  {
    hide ReadDigits, Tail, DropByte;
    TailDrop(s, 0);
    DropByteTail(s, MINUS, s);
    DropByteTail(DropByte(s, MINUS), ZERO, s);
    FirstDigitTail(DropByte(DropByte(s, MINUS), ZERO), s);
  }

  lemma FractionTail(s: CString, n: nat)
    ensures Tail(Fraction(s, n).1, s)
  {
    hide ReadDigits;
    if At(s, 0) == DOT && IsDigit(At(s, 1)) {
      DigitsTail(s[1..], n);
      TailJoins(Fraction(s, n).1, s[1..], s);
    }
  }

  lemma ExponentTail(s: CString)
    ensures Tail(Exponent(s).1, s)
  {
    hide ReadDigits;
    if At(s, 0) == 101 || At(s, 0) == 69 {
      var t := s[1..];
      var t1 := if At(t, 0) == MINUS || At(t, 0) == 43 then t[1..] else t;
      DigitsTail(t1, 0);
      TailJoins(t1, t, s);
      TailJoins(Exponent(s).1, t1, s);
    }
  }

  lemma NumberInside(s: CString)
    requires NumberStart(s)
    ensures Inside(s, ParseNumber(s))
  {
    hide WholePart, Fraction, Exponent, Tail;
    var (n3, s3) := WholePart(s);
    WholePartTail(s);
    FractionTail(s3, n3);
    var s4 := Fraction(s3, n3).1;
    ExponentTail(s4);
    TailJoins(s4, s3, s);
    TailJoins(Exponent(s4).1, s4, s);
  }

  lemma {:induction false} ScanInside(s: CString)
    ensures Scan(s).None? ==> EndsInBackslash(s)
    decreases |s|
  {
    if s != [] && s[0] != QUOTE && (s[0] == BACKSLASH ==> |s| >= 2) {
      ScanInside(s[if s[0] == BACKSLASH then 2 else 1..]);
    }
  }

  lemma StringInside(s: CString)
    ensures Inside(s, ParseString(s))
  {
    hide Scan, Decode, Tail;
    TailDrop(s, 0);
    if At(s, 0) == QUOTE {
      ScanWithin(s[1..]);
      ScanInside(s[1..]);
      if Scan(s[1..]).Some? {
        var rest := s[1..][Scan(s[1..]).value.0..];
        TailDrop(s[1..], Scan(s[1..]).value.0);
        TailDrop(s, 1);
        TailJoins(rest, s[1..], s);
        TailIf(At(rest, 0) == QUOTE, rest, s);
      }
    }
  }

  /** White space and the first byte after it. */
  lemma SkipDrop(t: CString, s: CString)
    requires Tail(t, s)
    ensures Tail(Skip(t), s) && (Skip(t) != [] ==> Tail(Skip(t)[1..], s))
  {
    SkipOf(t, s);
    TailIf(Skip(t) != [], Skip(t), s);
  }

  lemma DirectInside(s: CString)
    requires At(s, 0) != LBRACKET && At(s, 0) != LBRACE
    ensures Inside(s, ParseValue(s))
  {
    hide ParseString, ParseNumber;
    if NULL_TEXT <= s || TRUE_TEXT <= s {
      TailDrop(s, 4);
    } else if FALSE_TEXT <= s {
      TailDrop(s, 5);
    } else if At(s, 0) == QUOTE {
      StringInside(s);
    } else if NumberStart(s) {
      NumberInside(s);
    }
  }

  lemma {:induction false} ValueInside(s: CString)
    ensures Inside(s, ParseValue(s))
    decreases |s|, 0
  {
    hide ParseItems, ParseFields, Skip, Tail, EndsInBackslash;
    if At(s, 0) == LBRACKET || At(s, 0) == LBRACE {
      var t := Skip(s[1..]);
      TailDrop(s, 1);
      SkipDrop(s[1..], s);
      assert s[0] != NULL_TEXT[0] && s[0] != TRUE_TEXT[0] && s[0] != FALSE_TEXT[0];
      if At(s, 0) == LBRACKET {
        ItemsInside(t);
        InsideTail(t, ParseItems(t), s);
      } else {
        FieldsInside(t);
        InsideTail(t, ParseFields(t), s);
      }
    } else {
      DirectInside(s);
    }
  }

  lemma {:induction false} ItemsInside(s: CString)
    ensures Inside(s, ParseItems(s))
    decreases |s|, 1
  {
    hide ParseValue, Skip, Tail, EndsInBackslash;
    SkipTail(s);
    ValueInside(Skip(s));
    InsideTail(Skip(s), ParseValue(Skip(s)), s);
    if ParseValue(Skip(s)).Parsed? {
      var rest := ParseValue(Skip(s)).rest;
      var t := Skip(rest);
      SkipDrop(rest, s);
      if t != [] {
        ItemsInside(t[1..]);
        InsideTail(t[1..], ParseItems(t[1..]), s);
      }
    }
  }

  lemma {:induction false} FieldInside(s: CString)
    ensures Inside(s, ParseField(s))
    decreases |s|, 1
  {
    hide ParseValue, ParseString, Skip, Tail, EndsInBackslash;
    SkipTail(s);
    StringInside(Skip(s));
    InsideTail(Skip(s), ParseString(Skip(s)), s);
    if ParseString(Skip(s)).Parsed? {
      var rest := ParseString(Skip(s)).rest;
      SkipDrop(rest, s);
      if At(Skip(rest), 0) == COLON {
        AfterColon(Skip(rest)[1..], s);
      }
    }
  }

  lemma {:induction false} AfterColon(t: CString, s: CString)
    requires Tail(t, s) && |t| < |s|
    ensures var r := ParseValue(Skip(t));
      Inside(s, r) && (r.Parsed? ==> Tail(Skip(r.rest), s))
    decreases |t|, 1
  {
    hide ParseValue, Skip, Tail, EndsInBackslash;
    SkipOf(t, s);
    ValueInside(Skip(t));
    InsideTail(Skip(t), ParseValue(Skip(t)), s);
    if ParseValue(Skip(t)).Parsed? {
      SkipOf(ParseValue(Skip(t)).rest, s);
    }
  }

  lemma {:induction false} FieldsInside(s: CString)
    ensures Inside(s, ParseFields(s))
    decreases |s|, 2
  {
    hide ParseField, Tail, EndsInBackslash;
    FieldInside(s);
    if ParseField(s).Parsed? && ParseField(s).rest != [] {
      var t := ParseField(s).rest;
      TailIf(true, t, s);
      FieldsInside(t[1..]);
      InsideTail(t[1..], ParseFields(t[1..]), s);
    }
  }

  /** On any text that does not end in a backslash the parser stays inside the text, and so do its results. */
  lemma DocumentInside(s: CString, wholeText: bool)
    ensures Inside(s, ParseDocument(s, wholeText))
    ensures !EndsInBackslash(s) ==> !ParseDocument(s, wholeText).Overrun?
  {
    hide ParseValue, Skip;
    SkipTail(s);
    ValueInside(Skip(s));
    InsideTail(Skip(s), ParseValue(Skip(s)), s);
    match ParseValue(Skip(s))
    case Parsed(_, rest) =>
      SkipTail(rest);
      TailJoins(Skip(rest), rest, s);
    case _ =>
  }

  /** A quote and a backslash: the scan for the closing quote goes on past the terminator. */
  lemma OverrunExample(wholeText: bool)
    ensures ParseDocument([QUOTE, BACKSLASH], wholeText).Overrun?
  {
    var s: CString := [QUOTE, BACKSLASH];
    assert s[1..] == [BACKSLASH];
    assert Scan(s[1..]).None?;
    assert Skip(s) == s;
  }
}
