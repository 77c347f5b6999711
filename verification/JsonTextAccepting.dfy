/** The parser takes exactly the JSON texts and the loose texts of `JsonText`, and what it gives is what they denote. */
module JsonTextAccepting {
  import opened Bytes
  import opened Decimals
  import opened JsonTextParsing
  import opened Options
  import opened Parsing
  import opened Printing
  import opened Strings
  import opened Trees

  import opened T = JsonText

  // ----- white space

  lemma {:induction false} SkipGap(s: CString) returns (g: CString)
    ensures s == g + Skip(s) && forall c | c in g :: c <= 32
  {
    if s != [] && s[0] <= 32 {
      var h := SkipGap(s[1..]);
      g := [s[0]] + h;
      assert s == [s[0]] + s[1..];
    } else {
      g := [];
    }
  }

  lemma AnyGap(g: CString, place: Place)
    requires forall c | c in g :: c <= 32
    ensures Gap(g, Loose, place)
  {}

  // ----- numbers

  /** The digits that a text starts with. */
  lemma DigitPrefix(s: CString) returns (k: nat)
    ensures k <= |s| && AllDigits(s[..k]) && !IsDigit(At(s[k..], 0)) && s == s[..k] + s[k..]
    ensures k > 0 <==> IsDigit(At(s, 0))
  {
    k := 0;
    while k < |s| && IsDigit(s[k])
      invariant k <= |s| && AllDigits(s[..k])
      invariant k > 0 ==> IsDigit(s[0])
    {
      assert s[..k + 1] == s[..k] + [s[k]];
      k := k + 1;
    }
  }

  lemma WholeTaken(s: CString) returns (minus: CString, whole: CString, tail: CString)
    requires NumberStart(s)
    ensures s == minus + whole + tail && (minus == [] || minus == [45]) && Whole(whole, true) && minus + whole != []
    ensures !IsDigit(At(tail, 0)) || (whole == [48] && At(tail, 0) == 48)
  {
    minus := if s[0] == MINUS then [45] else [];
    var t := s[|minus|..];
    assert s == minus + t;
    if At(t, 0) == ZERO && At(t, 1) == ZERO {
      whole, tail := [48], t[1..];
      assert t == [48] + t[1..];
    } else {
      var k := DigitPrefix(t);
      whole, tail := t[..k], t[k..];
    }
    assert s == minus + whole + tail;
  }

  lemma FractionTaken(s: CString) returns (fraction: CString, tail: CString)
    ensures s == fraction + tail && T.Fraction(fraction)
    ensures if fraction == [] then At(tail, 0) != DOT || !IsDigit(At(tail, 1)) else !IsDigit(At(tail, 0))
  {
    if At(s, 0) == DOT && IsDigit(At(s, 1)) {
      var k := DigitPrefix(s[1..]);
      fraction, tail := [46] + s[1..][..k], s[1..][k..];
      assert fraction[1..] == s[1..][..k];
      assert s == [46] + s[1..];
    } else {
      fraction, tail := [], s;
    }
  }

  lemma ExponentTaken(s: CString) returns (exponent: CString, post: CString)
    ensures s == exponent + post && T.Exponent(exponent, true)
    ensures if exponent == [] then At(post, 0) != 101 && At(post, 0) != 69 else !IsDigit(At(post, 0))
    ensures exponent != [] && |exponent| == 1 ==> At(post, 0) != 43 && At(post, 0) != MINUS
  {
    if At(s, 0) == 101 || At(s, 0) == 69 {
      var h := if At(s, 1) == 43 || At(s, 1) == 45 then 2 else 1;
      var k := DigitPrefix(s[h..]);
      exponent, post := s[..h] + s[h..][..k], s[h..][k..];
      assert s == s[..h] + s[h..];
      assert s[h..] == s[h..][..k] + s[h..][k..];
      assert exponent[h..] == s[h..][..k];
      assert k > 0 && h == 1 ==> exponent[1] == s[h..][0];
      assert k == 0 ==> post == s[h..];
    } else {
      exponent, post := [], s;
    }
  }

  lemma NumberAccepted(s: CString) returns (text: CString)
    requires NumberStart(s)
    ensures s == text + ParseNumber(s).rest && ParseNumber(s).value.Number?
    ensures NumberText(text, ParseNumber(s).value.d, true)
  {
    hide WholePart, Parsing.Fraction, Parsing.Exponent, Whole, T.Fraction, T.Exponent, FractionValue, Scale, Scaled,
         Weight, Onto, NumberOf, Power;
    var minus, whole, tail := WholeTaken(s);
    var fraction, tail1 := FractionTaken(tail);
    var exponent, post := ExponentTaken(tail1);
    WholeWeighs(whole);
    WholeRead(minus, whole, tail);
    FractionDigits(fraction);
    FractionRead(fraction, Weight(whole), tail1);
    ExponentRead(exponent, post);
    var r := Parsing.Fraction(tail, Weight(whole));
    SpelledValue(minus != [], whole, r.0, r.2, fraction, exponent);
    text := minus + whole + fraction + exponent;
    assert s == text + post;
  }

  lemma FractionDigits(fraction: CString)
    requires T.Fraction(fraction)
    ensures fraction != [] ==> AllDigits(fraction[1..])
  {}

  // ----- strings

  /** A byte that the scan reaches is no quote. */
  lemma ScanStep(s: CString)
    requires Scan(s).Some? && Scan(s).value.0 > 0
    ensures s != [] && s[0] != QUOTE && (s[0] == BACKSLASH ==> |s| >= 2)
    ensures var k := if s[0] == BACKSLASH then 2 else 1;
      Scan(s[k..]).Some? && Scan(s).value.0 == Scan(s[k..]).value.0 + k
  {}

  lemma ValueIsHex(c: byte)
    requires HexValue(c).Some?
    ensures c > 0 && HexOf(c) == HexValue(c).value
  {}

  lemma Hex4IsUnit(s: CString, i: nat)
    requires Hex4(s, i) != 0
    ensures HasUnit(s, i) && UnitAt(s, i) == Hex4(s, i)
  {
    hide HexOf, HexValue;
    ValueIsHex(At(s, i));
    ValueIsHex(At(s, i + 1));
    ValueIsHex(At(s, i + 2));
    ValueIsHex(At(s, i + 3));
  }

  lemma EscapeIsCodePoint(s: CString)
    requires UnicodeEscape(s).Some? && s[0] == BACKSLASH && s[1] == LOWER_U
    ensures CodePoint(s, UnicodeEscape(s).value.0, UnicodeEscape(s).value.1)
  {
    hide Hex4, HasUnit, UnitAt;
    Hex4IsUnit(s, 2);
    assert s[..2] == [92, 117];
    if HighSurrogate(Hex4(s, 2)) {
      Hex4IsUnit(s, 8);
      assert s[6..8] == [92, 117];
      Pairs(Hex4(s, 2), Hex4(s, 8));
    }
  }

  lemma Pairs(high: nat, low: nat)
    requires HighSurrogate(high) && LowSurrogate(low)
    ensures Combine(high, low) == 0x10000 + (high - 0xD800) * 0x400 + (low - 0xDC00)
  {
    assert high % 0x400 == high - 0xD800 && low % 0x400 == low - 0xDC00;
  }

  lemma Utf8Fits(u: nat)
    requires Scalar(u)
    ensures Utf8Of(Utf8(u), u)
  {
    if u >= 0x10000 {
      assert u / 0x1000 / 0x40 == u / 0x40000 && u / 0x40 / 0x40 == u / 0x1000;
    } else if u >= 0x800 {
      assert u / 0x40 / 0x40 == u / 0x1000;
    }
  }

  /** What the scan passes over and the decoder takes is the contents of a loose literal. */
  lemma {:induction false} DecodeAccepts(s: CString, n: nat, v: CString)
    requires Scan(s).Some? && n == Scan(s).value.0 <= |s| && Decode(s[..n]) == Some(v)
    ensures Contents(s[..n], v, true)
    decreases |s|
  {
    hide Contents;
    if n == 0 {
      NoContents(s[..n]);
    } else {
      ScanStep(s);
      ScanWithin(s);
      hide Scan;
      if s[0] == BACKSLASH && s[1] == LOWER_U {
        var k := UnicodeEscape(s[..n]).value.1;
        EscapeUnits(s, n);
        DropTake(s, n, k);
        var rest := Decode(s[k..][..n - k]).value;
        DecodeAccepts(s[k..], n - k, rest);
        CodePointContents(s[..n], rest);
      } else {
        var k := if s[0] == BACKSLASH then 2 else 1;
        ScanWithin(s[k..]);
        DropTake(s, n, k);
        var rest := Decode(s[k..][..n - k]).value;
        DecodeAccepts(s[k..], n - k, rest);
        UnitContents(s[..n], k, rest);
      }
    }
  }

  lemma NoContents(body: CString)
    requires body == []
    ensures Decode(body) == Some([]) && Contents(body, [], true)
  {}

  lemma UnitContents(body: CString, k: nat, rest: CString)
    requires body != [] && k == (if body[0] == BACKSLASH then 2 else 1) <= |body|
    requires body[0] != QUOTE && (k == 2 ==> body[1] != LOWER_U)
    requires Contents(body[k..], rest, true)
    ensures Contents(body, [if k == 1 then body[0] else Unescaped(body[1])] + rest, true)
  {
    var s := [if k == 1 then body[0] else Unescaped(body[1])] + rest;
    assert s[1..] == rest;
    if k == 2 {
      UnescapedIs(body[1]);
    }
  }

  lemma CodePointContents(body: CString, rest: CString)
    requires |body| >= 2 && body[0] == BACKSLASH && body[1] == LOWER_U && UnicodeEscape(body).Some?
    requires Contents(body[UnicodeEscape(body).value.1..], rest, true)
    ensures Contents(body, Utf8(UnicodeEscape(body).value.0) + rest, true)
  {
    hide UnicodeEscape, CodePoint, Utf8, Utf8Of;
    var (u, n) := UnicodeEscape(body).value;
    EscapeIsCodePoint(body);
    Utf8Fits(u);
    var e := Utf8(u);
    var s := e + rest;
    assert s[..|e|] == e && s[|e|..] == rest;
    assert CodePoint(body, u, n) && Utf8Of(s[..|e|], u) && Contents(body[n..], s[|e|..], true);
  }

  /** A literal that is parsed has its closing quote, or is cut off by the end of the text. */
  lemma StringAccepted(s: CString) returns (text: CString)
    requires ParseString(s).Parsed?
    ensures var r := ParseString(s);
      s == text + r.rest && (StringText(text, r.value, true) || (r.rest == [] && Unclosed(text, r.value)))
  {
    hide Decode, Contents;
    var t := s[1..];
    ScanWithin(t);
    var n := Scan(t).value.0;
    var r := ParseString(s);
    DecodeAccepts(t, n, r.value);
    ScanEnds(t);
    if n < |t| {
      text := s[..n + 2];
      assert text[1..|text| - 1] == t[..n] && t[n..][1..] == s[n + 2..];
    } else {
      text := s;
      assert t[..n] == t && t[n..] == [];
    }
  }

  lemma {:induction false} ScanEnds(s: CString)
    ensures Scan(s).Some? && Scan(s).value.0 < |s| ==> s[Scan(s).value.0] == QUOTE
    decreases |s|
  {
    if s != [] && s[0] != QUOTE && !(s[0] == BACKSLASH && |s| < 2) {
      ScanEnds(s[if s[0] == BACKSLASH then 2 else 1..]);
    }
  }

  // ----- values

  /** `text` is what a value takes of a text, before what is left over. */
  ghost predicate Takes(text: CString, t: Json, depth: nat, rest: CString) {
    Denotes(text, t, Loose, depth) || (rest == [] && t.String? && Unclosed(text, t.s))
  }

  lemma LiteralAccepted(s: CString, depth: nat) returns (text: CString)
    requires NULL_TEXT <= s || FALSE_TEXT <= s || TRUE_TEXT <= s
    ensures ParseValue(s).Parsed? && s == text + ParseValue(s).rest
    ensures Denotes(text, ParseValue(s).value, Loose, depth)
  {
    var n := if FALSE_TEXT <= s then 5 else 4;
    text := s[..n];
    assert s == s[..n] + s[n..];
    assert NULL_TEXT <= s ==> s[0] == NULL_TEXT[0];
    assert FALSE_TEXT <= s ==> s[0] == FALSE_TEXT[0];
  }

  lemma {:induction false} ValueAccepted(s: CString, depth: nat) returns (text: CString)
    requires ParseValue(s).Parsed?
    ensures s == text + ParseValue(s).rest && Takes(text, ParseValue(s).value, depth, ParseValue(s).rest)
    decreases |s|, 1
  {
    if NULL_TEXT <= s || FALSE_TEXT <= s || TRUE_TEXT <= s {
      text := LiteralAccepted(s, depth);
    } else if At(s, 0) == QUOTE {
      hide ParseString, Contents;
      text := StringAccepted(s);
    } else if NumberStart(s) {
      hide ParseNumber, NumberText;
      text := NumberAccepted(s);
    } else if At(s, 0) == LBRACKET {
      text := ArrayAccepted(s, depth);
    } else {
      text := ObjectAccepted(s, depth);
    }
  }

  /** What follows an opening bracket. */
  lemma ArrayUnfolds(s: CString)
    requires At(s, 0) == LBRACKET && ParseValue(s).Parsed?
    ensures var t := Skip(s[1..]);
      if At(t, 0) == RBRACKET then ParseValue(s) == Parsed(Array([]), t[1..])
      else ParseItems(s[1..]).Parsed? &&
           ParseValue(s) == Parsed(Array(ParseItems(s[1..]).value), ParseItems(s[1..]).rest)
  {
    hide ParseItems, ParseFields;
    assert s[0] != NULL_TEXT[0] && s[0] != TRUE_TEXT[0] && s[0] != FALSE_TEXT[0];
    ParseItemsSkips(s[1..], Skip(s[1..]));
  }

  lemma ItemsUnfold(s: CString)
    requires ParseItems(s).Parsed?
    ensures var x, r := ParseValue(Skip(s)), ParseItems(s);
      && x.Parsed? && Skip(x.rest) != []
      && var t := Skip(x.rest);
         if t[0] == COMMA
         then ParseItems(t[1..]).Parsed? && r == Parsed([x.value] + ParseItems(t[1..]).value, ParseItems(t[1..]).rest)
         else t[0] == RBRACKET && r == Parsed([x.value], t[1..])
  {
    hide ParseValue;
  }

  /** Only a value that is the last of its text can lack its quote. */
  lemma TakesWhole(text: CString, t: Json, depth: nat, rest: CString)
    requires Takes(text, t, depth, rest) && rest != []
    ensures Denotes(text, t, Loose, depth)
  {}

  lemma ArrayIntro(inner: CString, xs: seq<Json>, depth: nat)
    requires if xs == [] then Gap(inner, Loose, Nothing) else Items(inner, xs, Loose, Nothing, depth + 1)
    ensures Denotes([91] + inner + [93], Array(xs), Loose, depth)
  {
    hide Gap, Items;
    var text := [91] + inner + [93];
    assert text[1..|text| - 1] == inner;
  }

  lemma ObjectIntro(inner: CString, ms: seq<Member>, depth: nat)
    requires if ms == [] then Gap(inner, Loose, Line(depth)) else Fields(inner, ms, Loose, depth + 1)
    ensures Denotes([123] + inner + [125], Object(ms), Loose, depth)
  {
    hide Gap, Fields;
    var text := [123] + inner + [125];
    assert text[1..|text| - 1] == inner;
  }

  lemma {:induction false} ArrayAccepted(s: CString, depth: nat) returns (text: CString)
    requires At(s, 0) == LBRACKET && ParseValue(s).Parsed?
    ensures s == text + ParseValue(s).rest && Denotes(text, ParseValue(s).value, Loose, depth)
    decreases |s|, 0
  {
    hide ParseItems, ParseValue, Items, Gap, Denotes, Skip;
    ArrayUnfolds(s);
    var t := Skip(s[1..]);
    var inner;
    if At(t, 0) == RBRACKET {
      inner := SkipGap(s[1..]);
      AnyGap(inner, Nothing);
      assert t == [93] + t[1..];
    } else {
      inner := ItemsAccepted(s[1..], Nothing, depth + 1);
    }
    ArrayIntro(inner, ParseValue(s).value.items, depth);
    text := [91] + inner + [93];
    assert s == [91] + s[1..];
  }

  lemma {:induction false} ItemsAccepted(s: CString, lead: Place, depth: nat) returns (inner: CString)
    requires ParseItems(s).Parsed?
    ensures var r := ParseItems(s);
      s == inner + ([93] + r.rest) && r.value != [] && Items(inner, r.value, Loose, lead, depth)
    decreases |s|, 2
  {
    hide ParseItems, ParseValue, Items, Gap, Denotes, Takes, Skip;
    ItemsUnfold(s);
    var x := ParseValue(Skip(s));
    var t := Skip(x.rest);
    var before := SkipGap(s);
    var value := ValueAccepted(Skip(s), depth);
    var after := SkipGap(x.rest);
    AnyGap(before, lead);
    AnyGap(after, Nothing);
    TakesWhole(value, x.value, depth, x.rest);
    var rest: CString := [];
    if t[0] == COMMA {
      var more := ItemsAccepted(t[1..], Blank, depth);
      rest := [44] + more;
      assert rest[1..] == more && t == [44] + t[1..];
    } else {
      assert t == [93] + t[1..];
    }
    ItemsIntro(before, value, after, rest, ParseItems(s).value, Loose, lead, depth);
    inner := before + value + after + rest;
  }

  /** What follows an opening brace. */
  lemma ObjectUnfolds(s: CString)
    requires At(s, 0) == LBRACE && ParseValue(s).Parsed?
    ensures var t := Skip(s[1..]);
      if At(t, 0) == RBRACE then ParseValue(s) == Parsed(Object([]), t[1..])
      else ParseFields(s[1..]).Parsed? &&
           ParseValue(s) == Parsed(Object(ParseFields(s[1..]).value), ParseFields(s[1..]).rest)
  {
    hide ParseItems, ParseFields;
    assert s[0] != NULL_TEXT[0] && s[0] != TRUE_TEXT[0] && s[0] != FALSE_TEXT[0];
    ParseFieldsSkips(s[1..], Skip(s[1..]));
  }

  lemma FieldUnfolds(s: CString)
    requires ParseField(s).Parsed?
    ensures var name, r := ParseString(Skip(s)), ParseField(s);
      && name.Parsed? && At(Skip(name.rest), 0) == COLON
      && var v := ParseValue(Skip(Skip(name.rest)[1..]));
         v.Parsed? && r == Parsed(Member(name.value, v.value), Skip(v.rest))
  {
    hide ParseValue, ParseString;
  }

  lemma FieldsUnfold(s: CString)
    requires ParseFields(s).Parsed?
    ensures var f, r := ParseField(s), ParseFields(s);
      && f.Parsed? && f.rest != []
      && if f.rest[0] == COMMA
         then && ParseFields(f.rest[1..]).Parsed?
              && r == Parsed([f.value] + ParseFields(f.rest[1..]).value, ParseFields(f.rest[1..]).rest)
         else f.rest[0] == RBRACE && r == Parsed([f.value], f.rest[1..])
  {
    hide ParseField;
  }

  lemma {:induction false} ObjectAccepted(s: CString, depth: nat) returns (text: CString)
    requires At(s, 0) == LBRACE && ParseValue(s).Parsed?
    ensures s == text + ParseValue(s).rest && Denotes(text, ParseValue(s).value, Loose, depth)
    decreases |s|, 0
  {
    hide ParseFields, ParseValue, Fields, Gap, Denotes, Skip;
    ObjectUnfolds(s);
    var t := Skip(s[1..]);
    var inner;
    if At(t, 0) == RBRACE {
      inner := SkipGap(s[1..]);
      AnyGap(inner, Line(depth));
      assert t == [125] + t[1..];
    } else {
      inner := FieldsAccepted(s[1..], depth + 1);
    }
    ObjectIntro(inner, ParseValue(s).value.members, depth);
    text := [123] + inner + [125];
    assert s == [123] + s[1..];
  }

  /** A member and the white space around it, with something behind. */
  lemma {:induction false} FieldAccepted(s: CString, depth: nat)
    returns (before: CString, field: CString, after: CString)
    requires ParseField(s).Parsed? && ParseField(s).rest != []
    ensures s == before + field + after + ParseField(s).rest && Field(field, ParseField(s).value, Loose, depth)
    ensures forall place :: Gap(before, Loose, place) && Gap(after, Loose, place)
    decreases |s|, 2
  {
    hide ParseField, ParseString, ParseValue, Gap, Denotes, Takes, Skip, Contents;
    FieldUnfolds(s);
    var name := ParseString(Skip(s));
    var t := Skip(name.rest);
    var v := ParseValue(Skip(t[1..]));
    before := SkipGap(s);
    var text := StringAccepted(Skip(s));
    var gap := SkipGap(name.rest);
    var gap1 := SkipGap(t[1..]);
    var value := ValueAccepted(Skip(t[1..]), depth);
    after := SkipGap(v.rest);
    forall place ensures Gap(before, Loose, place) && Gap(after, Loose, place) {
      AnyGap(before, place);
      AnyGap(after, place);
    }
    AnyGap(gap, Nothing);
    AnyGap(gap1, Tab);
    SkipEmpty(name.rest);
    SkipEmpty(v.rest);
    TakesWhole(value, v.value, depth, v.rest);
    FieldIntro(text, gap, gap1, value, ParseField(s).value, Loose, depth);
    field := text + gap + [58] + gap1 + value;
    assert t == [58] + t[1..];
  }

  lemma SkipEmpty(s: CString)
    ensures Skip(s) != [] ==> s != []
  {}

  lemma {:induction false} FieldsAccepted(s: CString, depth: nat) returns (inner: CString)
    requires ParseFields(s).Parsed? && depth > 0
    ensures var r := ParseFields(s);
      s == inner + ([125] + r.rest) && r.value != [] && Fields(inner, r.value, Loose, depth)
    decreases |s|, 3
  {
    hide ParseFields, ParseField, Fields, Field, Gap;
    FieldsUnfold(s);
    var f := ParseField(s);
    var before, field, after := FieldAccepted(s, depth);
    var rest: CString := [];
    if f.rest[0] == COMMA {
      var more := FieldsAccepted(f.rest[1..], depth);
      rest := [44] + more;
      assert rest[1..] == more && f.rest == [44] + f.rest[1..];
    } else {
      assert f.rest == [125] + f.rest[1..];
    }
    FieldsIntro(before, field, after, rest, ParseFields(s).value, Loose, depth);
    inner := before + field + after + rest;
  }

  // ----- documents

  /** A string that the end of the text cuts off is taken as it is. */
  lemma UnclosedParsed(text: CString, s: CString)
    requires Unclosed(text, s)
    ensures ParseValue(text) == Parsed(String(s), [])
  {
    hide Contents, Scan, Decode, ParseValue;
    var body := text[1..];
    ContentsDecode(body, s, true);
    ContentsScan(body, s, true, []);
    assert body + [] == body && body[..|body|] == body && body[|body|..] == [];
    StringIsParsed(text, s, []);
  }

  /** The whole of a text is taken exactly when it is accepted, and gives what it denotes. */
  lemma ParsesAccepted(s: CString, t: Json)
    ensures ParseDocument(s, true) == Parsed(t, []) <==> Accepted(s, t)
  {
    hide ParseValue, Denotes, Contents, Gap;
    if Text(s, t, Loose) {
      JsonIsParsed(s, t, Loose, true);
    }
    if t.String? {
      forall before: CString, literal: CString |
        s == before + literal && Gap(before, Loose, Nothing) && Unclosed(literal, t.s)
        ensures ParseDocument(s, true) == Parsed(t, [])
      {
        GapSkips(before, Loose, Nothing, literal);
        UnclosedParsed(literal, t.s);
      }
    }
    if ParseDocument(s, true) == Parsed(t, []) {
      var before := SkipGap(s);
      var v := ParseValue(Skip(s));
      var value := ValueAccepted(Skip(s), 0);
      var after := SkipGap(v.rest);
      AnyGap(before, Nothing);
      AnyGap(after, Nothing);
      assert after + [] == after && value + [] == value;
      if Denotes(value, t, Loose, 0) {
        assert s == before + value + after;
      } else {
        assert s == before + value;
      }
    }
  }
}
