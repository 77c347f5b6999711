/** Minifying keeps what a text means to the parser, whoever wrote the text. */
module MinifyParsing {
  import opened Bytes
  import opened Minifying
  import opened Numerals
  import opened Options
  import opened Parsing
  import opened Printing
  import opened Strings

  ghost predicate Covered(s: CString) {
    Minify(s).Some?
  }

  /** What is left of a text that minifying covers. */
  function Shrunk(s: CString): CString
    requires Covered(s)
  {
    Minify(s).value
  }

  // ----- white space and single bytes

  /** A byte that starts neither white space nor a comment stays, and a quote does. */
  lemma HeadStays(s: CString)
    requires s != [] && s[0] > 32 && s[0] != SLASH && Covered(s)
    ensures Shrunk(s) != [] && Shrunk(s)[0] == s[0] && Skip(Shrunk(s)) == Shrunk(s)
    ensures s[0] != QUOTE ==> Covered(s[1..]) && Shrunk(s)[1..] == Shrunk(s[1..])
  {
    hide Scan;
    ScanWithin(s[1..]);
  }

  /** The text after white space, if no comment starts it. */
  lemma {:induction false} SkipShrunk(s: CString)
    requires Covered(s) && At(Skip(s), 0) != SLASH
    ensures Covered(Skip(s)) && Skip(Shrunk(s)) == Shrunk(Skip(s))
  {
    if s != [] && s[0] <= 32 {
      SkipShrunk(s[1..]);
      if !White(s[0]) {
        assert Shrunk(s) == [s[0]] + Shrunk(s[1..]);
        assert Shrunk(s)[1..] == Shrunk(s[1..]);
      }
    } else if s != [] {
      HeadStays(s);
    }
  }

  lemma SkipTwice(s: CString)
    ensures Skip(Skip(s)) == Skip(s)
  {}

  // ----- what follows a value

  predicate Closes(c: byte) {
    c == 0 || c == COMMA || c == RBRACKET || c == RBRACE
  }

  /** After white space the text ends or goes on with a separator. */
  predicate Follows(s: CString) {
    Closes(At(Skip(s), 0))
  }

  /** No byte that could go on with a number. */
  predicate Stops(s: CString) {
    var c := At(s, 0);
    !IsDigit(c) && c != DOT && c != 101 && c != 69 && c != MINUS && c != 43
  }

  lemma FollowsShrunk(s: CString)
    requires Covered(s) && Follows(s)
    ensures Stops(s) && Stops(Shrunk(s))
  {
    SkipShrunk(s);
    var u := Skip(s);
    if u != [] {
      HeadStays(u);
    }
    SkipHead(s);
    SkipHead(Shrunk(s));
  }

  lemma SkipHead(s: CString)
    ensures At(s, 0) == 0 || At(s, 0) <= 32 || At(Skip(s), 0) == At(s, 0)
  {}

  // ----- numbers read the same before any text that stops them

  predicate NumberByte(c: Char) {
    IsDigit(c) || c == DOT || c == 101 || c == 69 || c == MINUS || c == 43
  }

  lemma {:induction false} DigitsBefore(p: CString, r: CString, n: nat)
    requires Stops(r)
    ensures ReadDigits(p + r, n) == (ReadDigits(p, n).0, ReadDigits(p, n).1 + r)
    ensures forall c | c in p :: c in ReadDigits(p, n).1 || NumberByte(c)
  {
    if p == [] {
      assert p + r == r;
    } else if IsDigit(p[0]) {
      DigitsBefore(p[1..], r, n * 10 + (p[0] - ZERO));
      assert (p + r)[1..] == p[1..] + r && p == [p[0]] + p[1..];
    }
  }

  lemma DropBefore(p: CString, c: Char, r: CString)
    requires Stops(r) && NumberByte(c)
    ensures DropByte(p + r, c) == DropByte(p, c) + r
    ensures forall x | x in p :: x in DropByte(p, c) || NumberByte(x)
  {
    if p == [] {
      assert p + r == r;
    } else {
      assert (p + r)[1..] == p[1..] + r && p == [p[0]] + p[1..];
    }
  }

  lemma WholeBefore(p: CString, r: CString)
    requires Stops(r)
    ensures WholePart(p + r) == (WholePart(p).0, WholePart(p).1 + r)
    ensures forall c | c in p :: c in WholePart(p).1 || NumberByte(c)
  {
    hide ReadDigits, DropByte;
    DropBefore(p, MINUS, r);
    var p1 := DropByte(p, MINUS);
    DropBefore(p1, ZERO, r);
    var p2 := DropByte(p1, ZERO);
    if p2 == [] {
      assert p2 + r == r;
    } else {
      assert (p2 + r)[1..] == p2[1..] + r && p2 == [p2[0]] + p2[1..];
      if IsDigit(p2[0]) && p2[0] != ZERO {
        DigitsBefore(p2[1..], r, p2[0] - ZERO);
      }
    }
  }

  lemma FractionBefore(p: CString, r: CString, n: nat)
    requires Stops(r)
    ensures Fraction(p + r, n) == (Fraction(p, n).0, Fraction(p, n).1 + r, Fraction(p, n).2)
    ensures forall c | c in p :: c in Fraction(p, n).1 || NumberByte(c)
  {
    hide ReadDigits;
    if p == [] {
      assert p + r == r;
    } else {
      assert (p + r)[1..] == p[1..] + r && p == [p[0]] + p[1..];
      assert At(p + r, 1) == if |p| > 1 then p[1] else At(r, 0);
      if p[0] == DOT {
        DigitsBefore(p[1..], r, n);
      }
    }
  }

  lemma ExponentBefore(p: CString, r: CString)
    requires Stops(r)
    ensures Exponent(p + r) == (Exponent(p).0, Exponent(p).1 + r)
    ensures forall c | c in p :: c in Exponent(p).1 || NumberByte(c)
  {
    hide ReadDigits;
    if p == [] {
      assert p + r == r;
    } else {
      assert (p + r)[1..] == p[1..] + r && p == [p[0]] + p[1..];
      if p[0] == 101 || p[0] == 69 {
        SignBefore(p[1..], r);
      }
    }
  }

  lemma SignBefore(t: CString, r: CString)
    requires Stops(r)
    ensures At(t + r, 0) == MINUS <==> At(t, 0) == MINUS
    ensures At(t + r, 0) == 43 <==> At(t, 0) == 43
    ensures var t1 := if At(t, 0) == MINUS || At(t, 0) == 43 then t[1..] else t;
      && (if At(t + r, 0) == MINUS || At(t + r, 0) == 43 then (t + r)[1..] else t + r) == t1 + r
      && ReadDigits(t1 + r, 0) == (ReadDigits(t1, 0).0, ReadDigits(t1, 0).1 + r)
      && forall c | c in t :: c in ReadDigits(t1, 0).1 || NumberByte(c)
  {
    hide ReadDigits;
    var t1 := if At(t, 0) == MINUS || At(t, 0) == 43 then t[1..] else t;
    if t == [] {
      assert t + r == r;
    } else {
      assert (t + r)[1..] == t[1..] + r && t == [t[0]] + t[1..];
    }
    DigitsBefore(t1, r, 0);
  }

  lemma NumberBefore(p: CString, r: CString)
    requires Stops(r) && NumberStart(p)
    ensures NumberStart(p + r)
    ensures ParseNumber(p + r) == Parsed(ParseNumber(p).value, ParseNumber(p).rest + r)
    ensures forall c | c in p :: c in ParseNumber(p).rest || NumberByte(c)
  {
    hide WholePart, Fraction, Exponent, Scaled;
    WholeBefore(p, r);
    var (n3, p3) := WholePart(p);
    FractionBefore(p3, r, n3);
    ExponentBefore(Fraction(p3, n3).1, r);
  }

  /** A number in front of two texts that stop it. */
  lemma NumberShrunk(s: CString, rest: CString, q: CString)
    requires NumberStart(s) && ParseNumber(s).rest == rest && Tail(rest, s) && Stops(rest) && Stops(q)
    ensures var p := s[..|s| - |rest|];
      && s == p + rest && ParseNumber(p + q) == Parsed(ParseNumber(s).value, q) && NumberStart(p + q)
      && forall c | c in p :: NumberByte(c)
  {
    hide ParseNumber;
    var p := s[..|s| - |rest|];
    assert s == p + rest && p != [];
    NumberBefore(p, rest);
    NumberBefore(p, q);
    assert |ParseNumber(p).rest| == 0;
    assert [] + q == q;
  }

  // ----- literals

  /** The scan sees nothing behind the closing quote. */
  lemma {:induction false} ScanBefore(s: CString, n: nat, post: CString)
    requires Scan(s).Some? && Scan(s).value.0 == n < |s|
    ensures Scan(s[..n + 1] + post) == Scan(s)
    decreases |s|
  {
    var t := s[..n + 1] + post;
    ScanWithin(s);
    if s[0] != QUOTE {
      var k := if s[0] == BACKSLASH then 2 else 1;
      ScanWithin(s[k..]);
      ScanBefore(s[k..], n - k, post);
      assert t[k..] == s[k..][..n - k + 1] + post;
    }
  }

  lemma LiteralShrunk(s: CString)
    requires Covered(s) && ParseString(s).Parsed?
    ensures var rest := ParseString(s).rest;
      Covered(rest) && ParseString(Shrunk(s)) == Parsed(ParseString(s).value, Shrunk(rest))
  {
    hide Scan, Decode;
    ScanWithin(s[1..]);
    var n := Scan(s[1..]).value.0;
    var rest := s[n + 2..];
    assert s[1..][n..][1..] == rest && s[1..][n..][0] == s[n + 1];
    ScanQuote(s[1..]);
    var t := s[..n + 2] + Shrunk(rest);
    ScanBefore(s[1..], n, Shrunk(rest));
    assert t[1..] == s[1..][..n + 1] + Shrunk(rest);
    assert t[1..][..n] == s[1..][..n] && t[1..][n..][0] == QUOTE && t[1..][n..][1..] == Shrunk(rest);
  }

  lemma {:induction false} ScanQuote(s: CString)
    requires Scan(s).Some? && Scan(s).value.0 < |s|
    ensures s[Scan(s).value.0] == QUOTE
    decreases |s|
  {
    if s[0] != QUOTE {
      var k := if s[0] == BACKSLASH then 2 else 1;
      ScanWithin(s[k..]);
      ScanQuote(s[k..]);
    }
  }

  // ----- values

  /** A value parsed from a text that minifying covers, and then from what is left of it. */
  ghost predicate Kept<T>(s: CString, r: Parse<T>, r1: Parse<T>) {
    r.Parsed? && Covered(r.rest) && r1 == Parsed(r.value, Shrunk(r.rest))
  }

  lemma PlainBefore(p: CString, rest: CString)
    requires (forall c | c in p :: !White(c) && c != SLASH && c != QUOTE) && Covered(p + rest)
    ensures Covered(rest) && Shrunk(p + rest) == p + Shrunk(rest)
  {
    hide Minify;
    PlainStays(p);
    assert Minify(p + rest) == Prepend(p, Minify(rest));
  }

  lemma WordShrunk(word: CString, s: CString)
    requires word <= s && Covered(s) && forall c | c in word :: !White(c) && c != SLASH && c != QUOTE
    ensures Covered(s[|word|..]) && word <= Shrunk(s) && Shrunk(s)[|word|..] == Shrunk(s[|word|..])
  {
    assert s == word + s[|word|..];
    PlainBefore(word, s[|word|..]);
  }

  lemma NumberKept(s: CString)
    requires Covered(s) && NumberStart(s) && Follows(ParseNumber(s).rest)
    ensures NumberStart(Shrunk(s)) && Kept(s, ParseNumber(s), ParseNumber(Shrunk(s)))
  {
    hide ParseNumber;
    var rest := ParseNumber(s).rest;
    NumberInside(s);
    var p := s[..|s| - |rest|];
    SkipHead(rest);
    NumberShrunk(s, rest, []);
    PlainBefore(p, rest);
    FollowsShrunk(rest);
    NumberShrunk(s, rest, Shrunk(rest));
  }

  lemma {:induction false} ValueKept(s: CString)
    requires Covered(s) && ParseValue(s).Parsed? && Follows(ParseValue(s).rest)
    ensures s[0] > 32 && s[0] != SLASH && Kept(s, ParseValue(s), ParseValue(Shrunk(s)))
    decreases |s|, 0, 1
  {
    hide Minify, ParseNumber, ParseString, ParseItems, ParseFields, Skip;
    if NULL_TEXT <= s {
      WordShrunk(NULL_TEXT, s);
    } else if FALSE_TEXT <= s {
      WordShrunk(FALSE_TEXT, s);
    } else if TRUE_TEXT <= s {
      WordShrunk(TRUE_TEXT, s);
    } else {
      HeadStays(s);
      if s[0] == QUOTE {
        LiteralShrunk(s);
      } else if NumberStart(s) {
        NumberKept(s);
      } else {
        BracketKept(s);
      }
    }
  }

  lemma {:induction false} BracketKept(s: CString)
    requires Covered(s) && (At(s, 0) == LBRACKET || At(s, 0) == LBRACE) && ParseValue(s).Parsed?
    ensures Kept(s, ParseValue(s), ParseValue(Shrunk(s)))
    decreases |s|, 0, 0
  {
    hide Minify, ParseItems, ParseFields, Skip;
    HeadStays(s);
    var t := Skip(s[1..]);
    SkipTwice(s[1..]);
    if s[0] == LBRACKET {
      if At(t, 0) != RBRACKET {
        ItemsHead(t);
      }
      SkipShrunk(s[1..]);
      HeadStays(t);
      if At(t, 0) != RBRACKET {
        ItemsKept(t);
      }
    } else {
      if At(t, 0) != RBRACE {
        FieldsHead(t);
      }
      SkipShrunk(s[1..]);
      HeadStays(t);
      if At(t, 0) != RBRACE {
        FieldsKept(t);
      }
    }
  }

  lemma ItemsHead(s: CString)
    requires ParseItems(s).Parsed?
    ensures Skip(s) != [] && Skip(s)[0] != SLASH && Skip(s)[0] != RBRACKET
  {}

  lemma FieldsHead(s: CString)
    requires ParseFields(s).Parsed?
    ensures At(Skip(s), 0) == QUOTE
  {}

  lemma {:induction false} ItemsKept(s: CString)
    requires Covered(s) && ParseItems(s).Parsed?
    ensures Kept(s, ParseItems(s), ParseItems(Shrunk(s)))
    decreases |s|, 1
  {
    hide Minify, ParseValue, Skip;
    ItemsHead(s);
    SkipShrunk(s);
    var u := Skip(s);
    var rest := ParseValue(u).rest;
    var t := Skip(rest);
    ValueKept(u);
    SkipShrunk(rest);
    HeadStays(t);
    if t[0] == COMMA {
      ItemsKept(t[1..]);
    }
  }

  lemma {:induction false} FieldKept(s: CString)
    requires Covered(s) && ParseField(s).Parsed?
    requires At(ParseField(s).rest, 0) == COMMA || At(ParseField(s).rest, 0) == RBRACE
    ensures Kept(s, ParseField(s), ParseField(Shrunk(s)))
    decreases |s|, 1
  {
    hide Minify, ParseValue, ParseString, Skip;
    StringHead(Skip(s));
    SkipShrunk(s);
    LiteralShrunk(Skip(s));
    var rest := ParseString(Skip(s)).rest;
    SkipShrunk(rest);
    var t := Skip(rest);
    HeadStays(t);
    var u := Skip(t[1..]);
    ValueHead(u);
    SkipShrunk(t[1..]);
    ValueKept(u);
    SkipShrunk(ParseValue(u).rest);
  }

  lemma StringHead(s: CString)
    requires ParseString(s).Parsed?
    ensures At(s, 0) == QUOTE
  {}

  lemma ValueHead(s: CString)
    requires ParseValue(s).Parsed?
    ensures At(s, 0) != SLASH && s != []
  {}

  lemma {:induction false} FieldsKept(s: CString)
    requires Covered(s) && ParseFields(s).Parsed?
    ensures Kept(s, ParseFields(s), ParseFields(Shrunk(s)))
    decreases |s|, 2
  {
    hide Minify, ParseField;
    FieldKept(s);
    var t := ParseField(s).rest;
    HeadStays(t);
    if t[0] == COMMA {
      FieldsKept(t[1..]);
    }
  }

  /** Whatever text the parser accepts as a whole: if minifying covers it, what is left gives the same tree. */
  lemma MinifyKeepsTree(s: CString)
    requires ParseDocument(s, true).Parsed? && Minify(s).Some?
    ensures ParseDocument(Minify(s).value, true) == ParseDocument(s, true)
  {
    hide Minify, ParseValue, Skip;
    var u := Skip(s);
    var rest := ParseValue(u).rest;
    ValueHead(u);
    SkipShrunk(s);
    ValueKept(u);
    HeadStays(u);
    SkipShrunk(rest);
    assert Minify([]) == Some([]);
  }
}
