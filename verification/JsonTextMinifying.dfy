/** Minifying JSON text, with or without comments, leaves compact JSON text that denotes the same tree. */
module JsonTextMinifying {
  import opened Bytes
  import opened Decimals
  import opened JsonTextParsing
  import opened Minifying
  import opened Options
  import opened Parsing
  import opened Strings
  import opened Trees

  import opened T = JsonText

  // ----- comments

  lemma {:induction false} LineEndsAt(s: CString, i: nat)
    requires i < |s| && s[i] == 10 && forall k | 0 <= k < i :: s[k] != 10
    ensures LineEnd(s) == s[i..]
  {
    if i > 0 {
      LineEndsAt(s[1..], i - 1);
    }
  }

  lemma {:induction false} CommentEndsAt(s: CString, i: nat)
    requires i + 1 < |s| && s[i] == 42 && s[i + 1] == 47
    requires forall k | 0 <= k < i :: !(s[k] == 42 && s[k + 1] == 47)
    ensures CommentEnd(s) == Some(s[i + 2..])
  {
    if i > 0 {
      CommentEndsAt(s[1..], i - 1);
    }
  }

  lemma PrependNothing(r: Option<CString>)
    ensures Prepend([], r) == r
  {
    assert r.Some? ==> [] + r.value == r.value;
  }

  lemma LineCommentGoes(c: CString)
    requires LineComment(c)
    ensures Becomes(c, [])
  {
    forall post: CString
      ensures Minify(c + post) == Prepend([], Minify(post))
    {
      var s := c + post;
      assert s[0] == c[..2][0] && s[1] == c[..2][1];
      LineEndsAt(s[1..], |c| - 2);
      assert s[1..][|c| - 2..] == [10] + post;
      assert ([10] + post)[1..] == post;
      assert Minify(s) == Minify([10] + post) == Minify(post);
      PrependNothing(Minify(post));
    }
  }

  /** A block comment is taken to end where it does unless a slash follows its first asterisk. */
  lemma BlockCommentEnds(c: CString, post: CString)
    requires BlockComment(c)
    ensures CommentEnd(c + post) == Some(post) <==> c[2] != 47
  {
    var s := c + post;
    var n := |c| - 2;
    assert s[0] == c[..2][0] && s[1] == c[..2][1];
    assert s[n] == c[n..][0] && s[n + 1] == c[n..][1];
    if c[2] != 47 {
      CommentEndsAt(s, n);
      assert s[n + 2..] == post;
    } else {
      CommentEndsAt(s, 1);
      assert |s[3..]| > |post|;
    }
  }

  lemma BlockCommentGoes(c: CString)
    requires BlockComment(c) && c[2] != 47
    ensures Becomes(c, [])
  {
    forall post: CString
      ensures Minify(c + post) == Prepend([], Minify(post))
    {
      var s := c + post;
      assert s[0] == c[..2][0] && s[1] == c[..2][1];
      BlockCommentEnds(c, post);
      assert Minify(s) == Minify(post);
      PrependNothing(Minify(post));
    }
  }

  /** The slash makes the comment end at once, and what was left of it stays in the text. */
  lemma SlashEndsComment()
    ensures BlockComment([47, 42, 47, 42, 47]) && Minify([47, 42, 47, 42, 47]) == Some([42, 47])
  {
    var c: CString := [47, 42, 47, 42, 47];
    assert c[..2] == [47, 42] && c[3..] == [42, 47];
    BlockCommentEnds(c, []);
    CommentEndsAt(c, 1);
    var end: CString := [42, 47];
    var slash: CString := [47];
    assert end[1..] == slash && slash[1..] == [] && Minify([]) == Some([]);
    assert slash + [] == slash && [42] + slash == end;
    assert Minify(slash) == Some(slash);
    assert Minify(end) == Some(end);
  }

  lemma {:induction false} CommentsGo(g: CString)
    requires Comments(g)
    ensures Becomes(g, [])
    decreases |g|
  {
    hide Minify, Becomes, Comment;
    if g == [] {
      BecomesNothing();
    } else if T.White(g[..1]) && Comments(g[1..]) {
      assert forall c | c in g[..1] :: Minifying.White(c);
      WhiteGoes(g[..1]);
      CommentsGo(g[1..]);
      BothGo(g[..1], g[1..]);
      assert g[..1] + g[1..] == g;
    } else {
      var k :| 0 < k <= |g| && Comment(g[..k]) && Comments(g[k..]);
      CommentGoes(g[..k]);
      CommentsGo(g[k..]);
      BothGo(g[..k], g[k..]);
      assert g[..k] + g[k..] == g;
    }
  }

  lemma BothGo(a: CString, b: CString)
    requires Becomes(a, []) && Becomes(b, [])
    ensures Becomes(a + b, [])
  {
    hide Becomes;
    var none: CString := [];
    BecomesJoin(a, none, b, none);
    assert none + none == none;
  }

  lemma CommentGoes(c: CString)
    requires Comment(c)
    ensures Becomes(c, [])
  {
    hide Becomes;
    if LineComment(c) {
      LineCommentGoes(c);
    } else {
      BlockCommentGoes(c);
    }
  }

  lemma GapWhite(g: CString, layout: Layout, place: Place)
    requires Gap(g, layout, place) && !layout.Commented? && !layout.Loose?
    ensures forall i | 0 <= i < |g| :: Minifying.White(g[i])
  {
    assert forall i | 0 <= i < |g| :: g[i] in g;
  }

  lemma GapGoes(g: CString, layout: Layout, place: Place)
    requires Gap(g, layout, place) && !layout.Loose?
    ensures Becomes(g, [])
  {
    if layout.Commented? {
      CommentsGo(g);
    } else {
      hide Becomes, Gap;
      GapWhite(g, layout, place);
      WhiteGoes(g);
    }
  }

  // ----- values

  lemma NumberStays(text: CString, d: real)
    requires NumberText(text, d, false)
    ensures Becomes(text, text)
  {
    hide NumberOf, Becomes;
    var minus, whole, fraction, exponent := NumberParts(text, d, false);
    forall c | c in text
      ensures !Minifying.White(c) && c != SLASH && c != QUOTE
    {
      NumberByte(minus, whole, fraction, exponent, c);
    }
    PlainStays(text);
  }

  lemma NumberByte(minus: CString, whole: CString, fraction: CString, exponent: CString, c: Char)
    requires (minus == [] || minus == [45]) && Whole(whole, false)
    requires T.Fraction(fraction) && T.Exponent(exponent, false)
    requires c in minus + whole + fraction + exponent
    ensures c > 32 && c != SLASH && c != QUOTE
  {
    if c in exponent {
      ExponentByte(exponent, c);
    } else if c in fraction {
      assert fraction == [46] + fraction[1..];
      if c in fraction[1..] {
        DigitIn(fraction[1..], c);
      }
    } else if c in whole {
      DigitIn(whole, c);
    }
  }

  lemma DigitIn(s: CString, c: Char)
    requires AllDigits(s) && c in s
    ensures 48 <= c <= 57
  {
    var i :| 0 <= i < |s| && s[i] == c;
  }

  lemma ExponentByte(exponent: CString, c: Char)
    requires T.Exponent(exponent, false) && c in exponent
    ensures c > 32 && c != SLASH && c != QUOTE
  {
    var k := ExponentHead(exponent);
    assert exponent == exponent[..k] + exponent[k..];
    if c in exponent[k..] {
      DigitIn(exponent[k..], c);
    }
  }

  lemma StringStays(text: CString, s: CString)
    requires StringText(text, s, false)
    ensures Becomes(text, text)
  {
    hide Contents, Scan;
    var body := text[1..|text| - 1];
    forall post: CString
      ensures Minify(text + post) == Prepend(text, Minify(post))
    {
      var all := text + post;
      ContentsScan(body, s, false, [QUOTE] + post);
      assert all[1..] == body + ([QUOTE] + post);
      assert all[..|body| + 2] == text && all[|body| + 2..] == post;
    }
  }

  lemma LiteralStays(text: CString, t: Json, layout: Layout, depth: nat)
    requires Denotes(text, t, layout, depth) && (t.Null? || t.True? || t.False?)
    ensures Becomes(text, text)
  {
    hide Becomes;
    PlainStays(text);
  }

  lemma OneStays(c: Char)
    requires !Minifying.White(c) && c != SLASH && c != QUOTE
    ensures Becomes([c], [c])
  {
    hide Becomes;
    PlainStays([c]);
  }

  /** A bracketed text, when what is between the brackets is minified. */
  lemma Bracketed(text: CString, inner1: CString)
    requires |text| >= 2 && text[0] in {LBRACKET, LBRACE} && text[|text| - 1] in {RBRACKET, RBRACE}
    requires Becomes(text[1..|text| - 1], inner1)
    ensures Becomes(text, [text[0]] + inner1 + [text[|text| - 1]])
  {
    hide Becomes;
    var c, inner, d := text[0], text[1..|text| - 1], text[|text| - 1];
    OneStays(c);
    OneStays(d);
    BecomesJoin([c], [c], inner, inner1);
    BecomesJoin([c] + inner, [c] + inner1, [d], [d]);
    assert [c] + inner + [d] == text;
  }

  /** What a value in any layout becomes. */
  lemma {:induction false} ValueMinified(text: CString, t: Json, layout: Layout, depth: nat) returns (r: CString)
    requires Denotes(text, t, layout, depth) && !layout.Loose?
    ensures Becomes(text, r) && Denotes(r, t, Compact, depth)
    decreases t, 2
  {
    hide Becomes, Items, Fields, Gap, NumberText, Contents;
    match t {
      case Number(d) =>
        NumberStays(text, d);
        r := text;
      case String(s) =>
        StringStays(text, s);
        r := text;
      case Array(xs) =>
        r := ArrayMinified(text, xs, layout, depth);
      case Object(ms) =>
        r := ObjectMinified(text, ms, layout, depth);
      case _ =>
        LiteralStays(text, t, layout, depth);
        r := text;
    }
  }

  lemma {:induction false} ArrayMinified(text: CString, xs: seq<Json>, layout: Layout, depth: nat)
    returns (r: CString)
    requires Denotes(text, Array(xs), layout, depth) && !layout.Loose?
    ensures Becomes(text, r) && Denotes(r, Array(xs), Compact, depth)
    decreases xs, 1
  {
    hide Becomes, Items, Gap;
    var inner1: CString := [];
    NoGap();
    if xs == [] {
      GapGoes(text[1..|text| - 1], layout, Nothing);
    } else {
      inner1 := ItemsMinified(text[1..|text| - 1], xs, layout, Nothing, depth + 1);
    }
    Bracketed(text, inner1);
    r := [LBRACKET] + inner1 + [RBRACKET];
    assert r[1..|r| - 1] == inner1;
  }

  lemma NoGap()
    ensures forall place :: Gap([], Compact, place)
  {}

  /** A text in four parts. */
  lemma FourBecome(a: CString, b: CString, b1: CString, c: CString, d: CString, d1: CString)
    requires Becomes(a, []) && Becomes(b, b1) && Becomes(c, []) && Becomes(d, d1)
    ensures Becomes(a + b + c + d, b1 + d1)
  {
    hide Becomes;
    BecomesJoin(a, [], b, b1);
    BecomesJoin(a + b, [] + b1, c, []);
    BecomesJoin(a + b + c, [] + b1 + [], d, d1);
    assert [] + b1 + [] == b1;
  }

  /** A comma and what follows it. */
  lemma CommaStays(rest: CString, rest1: CString)
    requires rest != [] && rest[0] == COMMA && Becomes(rest[1..], rest1)
    ensures Becomes(rest, [COMMA] + rest1)
  {
    hide Becomes;
    OneStays(COMMA);
    BecomesJoin([COMMA], [COMMA], rest[1..], rest1);
    assert rest == [COMMA] + rest[1..];
  }

  lemma {:induction false} ItemsMinified(s: CString, xs: seq<Json>, layout: Layout, lead: Place, depth: nat)
    returns (r: CString)
    requires xs != [] && Items(s, xs, layout, lead, depth) && !layout.Loose?
    ensures Becomes(s, r) && Items(r, xs, Compact, lead, depth)
    decreases xs, 0
  {
    hide Becomes, Items, Gap, Denotes;
    var before, value, after, rest := ItemsParts(s, xs, layout, lead, depth);
    var value1 := ValueMinified(value, xs[0], layout, depth);
    var rest1: CString := [];
    NoGap();
    GapGoes(before, layout, lead);
    GapGoes(after, layout, Nothing);
    if |xs| == 1 {
      BecomesNothing();
    } else {
      var more := ItemsMinified(rest[1..], xs[1..], layout, Blank, depth);
      CommaStays(rest, more);
      rest1 := [COMMA] + more;
      assert rest1[1..] == more;
    }
    FourBecome(before, value, value1, after, rest, rest1);
    ItemsIntro([], value1, [], rest1, xs, Compact, lead, depth);
    assert [] + value1 + [] + rest1 == value1 + rest1;
    r := value1 + rest1;
  }

  lemma {:induction false} ObjectMinified(text: CString, ms: seq<Member>, layout: Layout, depth: nat)
    returns (r: CString)
    requires Denotes(text, Object(ms), layout, depth) && !layout.Loose?
    ensures Becomes(text, r) && Denotes(r, Object(ms), Compact, depth)
    decreases ms, 1
  {
    hide Becomes, Fields, Gap;
    var inner1: CString := [];
    NoGap();
    if ms == [] {
      GapGoes(text[1..|text| - 1], layout, Line(depth));
    } else {
      inner1 := FieldsMinified(text[1..|text| - 1], ms, layout, depth + 1);
    }
    Bracketed(text, inner1);
    r := [LBRACE] + inner1 + [RBRACE];
    assert r[1..|r| - 1] == inner1;
  }

  lemma {:induction false} FieldMinified(f: CString, m: Member, layout: Layout, depth: nat) returns (r: CString)
    requires Field(f, m, layout, depth) && !layout.Loose?
    ensures Becomes(f, r) && Field(r, m, Compact, depth)
    decreases m, 3
  {
    hide Becomes, Field, Gap, Denotes, Contents;
    var name, after, before, value := T.FieldParts(f, m, layout, depth);
    var value1 := ValueMinified(value, m.value, layout, depth);
    NoGap();
    GapGoes(after, layout, Nothing);
    GapGoes(before, layout, Tab);
    StringStays(name, m.name);
    OneStays(COLON);
    BecomesJoin(name, name, after, []);
    BecomesJoin(name + after, name + [], [COLON], [COLON]);
    BecomesJoin(name + after + [COLON], name + [] + [COLON], before, []);
    BecomesJoin(name + after + [COLON] + before, name + [] + [COLON] + [], value, value1);
    FieldIntro(name, [], [], value1, m, Compact, depth);
    r := name + [] + [58] + [] + value1;
  }

  lemma {:induction false} FieldsMinified(s: CString, ms: seq<Member>, layout: Layout, depth: nat)
    returns (r: CString)
    requires ms != [] && depth > 0 && Fields(s, ms, layout, depth) && !layout.Loose?
    ensures Becomes(s, r) && Fields(r, ms, Compact, depth)
    decreases ms, 0
  {
    hide Becomes, Fields, Field, Gap;
    var before, field, after, rest := FieldsParts(s, ms, layout, depth);
    var field1 := FieldMinified(field, ms[0], layout, depth);
    var rest1: CString := [];
    NoGap();
    GapGoes(before, layout, Line(depth));
    GapGoes(after, layout, if |ms| == 1 then Line(depth - 1) else Nothing);
    if |ms| == 1 {
      BecomesNothing();
    } else {
      var more := FieldsMinified(rest[1..], ms[1..], layout, depth);
      CommaStays(rest, more);
      rest1 := [COMMA] + more;
      assert rest1[1..] == more;
    }
    FourBecome(before, field, field1, after, rest, rest1);
    FieldsIntro([], field1, [], rest1, ms, Compact, depth);
    assert [] + field1 + [] + rest1 == field1 + rest1;
    r := field1 + rest1;
  }

  /** JSON text, with white space and comments between its tokens, is minified to compact text for the same tree. */
  lemma MinifyCompacts(s: CString, t: Json, layout: Layout)
    requires Text(s, t, layout) && !layout.Loose?
    ensures Minify(s).Some? && Text(Minify(s).value, t, Compact)
    ensures forall wholeText :: ParseDocument(Minify(s).value, wholeText) == Parsed(t, [])
  {
    hide Minify, Gap, Denotes, ParseDocument;
    var before, value, after := TextParts(s, t, layout);
    var value1 := ValueMinified(value, t, layout, 0);
    NoGap();
    GapGoes(before, layout, Nothing);
    GapGoes(after, layout, Nothing);
    BecomesNothing();
    FourBecome(before, value, value1, after, [], []);
    assert s == before + value + after + [] + [] && value1 + [] == value1;
    assert Minify(before + value + after + [] + []) == Prepend(value1 + [], Minify([]));
    MinifyNothing();
    assert [] + value1 + [] == value1;
    assert Minify(s) == Some(value1);
    CompactParsed(value1, t);
  }

  lemma MinifyNothing()
    ensures Minify([]) == Some([])
  {}

  lemma CompactParsed(value: CString, t: Json)
    requires Denotes(value, t, Compact, 0)
    ensures Text(value, t, Compact)
    ensures forall wholeText :: ParseDocument(value, wholeText) == Parsed(t, [])
  {
    hide Gap, Denotes, ParseValue;
    NoGap();
    assert value == [] + value + [];
    ValueStarts(value, t, Compact, 0);
    assert Skip(value) == value && value + [] == value;
    ValueParsed(value, t, Compact, 0, []);
  }
}
