/** `cJSON_Minify`: white space and comments leave the text, in place. */
module Minifying {
  import opened Bytes
  import opened CMemory
  import opened Numerals
  import opened Options
  import opened Printing
  import opened Strings
  import opened Trees

  const STAR: Char := 42

  predicate White(c: byte) {
    c == SPACE || c == TAB || c == RETURN || c == NEWLINE
  }

  /** The text from the end of the line on. */
  function LineEnd(s: CString): (r: CString)
    ensures |r| <= |s|
  {
    if s == [] || s[0] == NEWLINE then s else LineEnd(s[1..])
  }

  /** The text after the comment that `s` is inside of; None when nothing closes it. */
  function CommentEnd(s: CString): (r: Option<CString>)
    ensures r.Some? ==> |r.value| < |s|
  {
    if s == [] then None
    else if s[0] == STAR && At(s, 1) == SLASH then Some(s[2..])
    else CommentEnd(s[1..])
  }

  /**
   * What is left of the text. None when the code would step over the terminator: the text ends in a comment
   * between asterisks or in a string literal.
   */
  function Minify(s: CString): (r: Option<CString>)
    ensures r.Some? ==> |r.value| <= |s|
    decreases |s|
  {
    if s == [] then Some([])
    else if White(s[0]) then Minify(s[1..])
    else if s[0] == SLASH && At(s, 1) == SLASH then Minify(LineEnd(s[1..]))
    else if s[0] == SLASH && At(s, 1) == STAR then
      match CommentEnd(s)
      case None => None
      case Some(rest) => Minify(rest)
    else if s[0] == QUOTE then
      ScanWithin(s[1..]);
      match Scan(s[1..])
      case None => None
      case Some((n, _)) => if n == |s| - 1 then None else Prepend(s[..n + 2], Minify(s[n + 2..]))
    else Prepend([s[0]], Minify(s[1..]))
  }

  // ----- where it would step over the terminator

  /** What a byte of the text belongs to. */
  datatype Lexical = Plain | InLine | InBlock | InLiteral

  /** What the text ends in when it starts in `state`. */
  function EndState(s: CString, state: Lexical): Lexical
    decreases |s|
  {
    if s == [] then state
    else
      match state
      case Plain =>
        if s[0] == QUOTE then EndState(s[1..], InLiteral)
        else if s[0] == SLASH && At(s, 1) == SLASH then EndState(s[1..], InLine)
        else if s[0] == SLASH && At(s, 1) == STAR then EndState(s[1..], InBlock)
        else EndState(s[1..], Plain)
      case InLine => EndState(s[1..], if s[0] == NEWLINE then Plain else InLine)
      case InBlock =>
        if s[0] == STAR && At(s, 1) == SLASH then EndState(s[2..], Plain) else EndState(s[1..], InBlock)
      case InLiteral =>
        if s[0] == QUOTE then EndState(s[1..], Plain)
        else if s[0] == BACKSLASH && |s| >= 2 then EndState(s[2..], InLiteral)
        else EndState(s[1..], InLiteral)
  }

  lemma {:induction false} LineState(s: CString)
    ensures EndState(s, InLine) == if LineEnd(s) == [] then InLine else EndState(LineEnd(s), Plain)
  {
    if s != [] && s[0] != NEWLINE {
      LineState(s[1..]);
    }
  }

  lemma {:induction false} BlockState(s: CString)
    ensures EndState(s, InBlock) == if CommentEnd(s).None? then InBlock else EndState(CommentEnd(s).value, Plain)
  {
    if s != [] && !(s[0] == STAR && At(s, 1) == SLASH) {
      BlockState(s[1..]);
    }
  }

  lemma {:induction false} LiteralState(s: CString)
    ensures Scan(s).Some? ==> Scan(s).value.0 <= |s|
    ensures EndState(s, InLiteral) ==
            if Scan(s).None? || Scan(s).value.0 == |s| then InLiteral else EndState(s[Scan(s).value.0 + 1..], Plain)
    decreases |s|
  {
    if s != [] && s[0] != QUOTE && !(s[0] == BACKSLASH && |s| < 2) {
      var k := if s[0] == BACKSLASH then 2 else 1;
      LiteralState(s[k..]);
      if Scan(s).Some? && Scan(s).value.0 < |s| {
        assert s[k..][Scan(s[k..]).value.0 + 1..] == s[Scan(s).value.0 + 1..];
      }
    }
  }

  /** Minifying steps over the terminator exactly when the text ends inside a literal or a comment between asterisks. */
  lemma {:induction false} MinifyOverruns(s: CString)
    ensures Minify(s).None? <==> EndState(s, Plain) == InLiteral || EndState(s, Plain) == InBlock
    decreases |s|
  {
    hide Scan, CommentEnd, LineEnd;
    if s == [] {
    } else if s[0] == SLASH && At(s, 1) == SLASH {
      LineState(s[1..]);
      MinifyOverruns(LineEnd(s[1..]));
    } else if s[0] == SLASH && At(s, 1) == STAR {
      BlockState(s[1..]);
      CommentStart(s);
      if CommentEnd(s).Some? {
        MinifyOverruns(CommentEnd(s).value);
      }
    } else if s[0] == QUOTE {
      LiteralState(s[1..]);
      if Scan(s[1..]).Some? && Scan(s[1..]).value.0 < |s| - 1 {
        var n := Scan(s[1..]).value.0;
        assert s[1..][n + 1..] == s[n + 2..];
        MinifyOverruns(s[n + 2..]);
      }
    } else {
      MinifyOverruns(s[1..]);
    }
  }

  lemma CommentStart(s: CString)
    requires s != [] && s[0] == SLASH
    ensures CommentEnd(s) == CommentEnd(s[1..])
  {}

  /** A comment that is never closed, and a literal that is never closed. */
  lemma OverrunExamples()
    ensures Minify([SLASH, STAR]).None? && Minify([QUOTE]).None?
  {
    var comment: CString, literal: CString := [SLASH, STAR], [QUOTE];
    assert comment[1..] == [STAR] && [STAR][1..] == [] && CommentEnd([STAR]).None?;
    assert literal[1..] == [] && Scan([]) == Some((0, 0));
  }

  // ----- the text of a tree

  /** Wherever `p` starts a text, minifying turns it into `p1`. */
  ghost predicate Becomes(p: CString, p1: CString) {
    forall post: CString {:trigger Minify(p + post)} :: Minify(p + post) == Prepend(p1, Minify(post))
  }

  lemma BecomesJoin(p: CString, p1: CString, q: CString, q1: CString)
    requires Becomes(p, p1) && Becomes(q, q1)
    ensures Becomes(p + q, p1 + q1)
  {
    hide Minify;
    forall post: CString
      ensures Minify(p + q + post) == Prepend(p1 + q1, Minify(post))
    {
      assert p + q + post == p + (q + post);
      PrependTwice(p1, q1, Minify(post));
    }
  }

  lemma BecomesNothing()
    ensures Becomes([], [])
  {
    hide Minify;
    forall post: CString
      ensures Minify([] + post) == Prepend([], Minify(post))
    {
      assert [] + post == post;
      assert Minify(post).Some? ==> [] + Minify(post).value == Minify(post).value;
    }
  }

  lemma {:induction false} WhiteGoes(w: CString)
    requires forall c | c in w :: White(c)
    ensures Becomes(w, [])
  {
    if w == [] {
      BecomesNothing();
    } else {
      assert forall c | c in w[1..] :: c in w;
      WhiteGoes(w[1..]);
      forall post: CString
        ensures Minify(w + post) == Prepend([], Minify(post))
      {
        assert (w + post)[1..] == w[1..] + post;
      }
    }
  }

  lemma {:induction false} PlainStays(w: CString)
    requires forall c | c in w :: !White(c) && c != SLASH && c != QUOTE
    ensures Becomes(w, w)
  {
    if w == [] {
      BecomesNothing();
    } else {
      assert forall c | c in w[1..] :: c in w;
      PlainStays(w[1..]);
      forall post: CString
        ensures Minify([w[0]] + post) == Prepend([w[0]], Minify(post))
      {
        assert ([w[0]] + post)[1..] == post;
      }
      BecomesJoin([w[0]], [w[0]], w[1..], w[1..]);
      assert [w[0]] + w[1..] == w;
    }
  }

  lemma QuotedStays(s: CString)
    ensures Becomes(Quoted(s), Quoted(s))
  {
    hide Escape, Scan;
    forall post: CString
      ensures Minify(Quoted(s) + post) == Prepend(Quoted(s), Minify(post))
    {
      var text := Quoted(s) + post;
      ScanEscape(s, post);
      assert text[1..] == Escape(s) + [QUOTE] + post;
      assert text[..|Escape(s)| + 2] == Quoted(s) && text[|Escape(s)| + 2..] == post;
    }
  }

  lemma DecimalStays(n: int)
    ensures Becomes(Decimal(n), Decimal(n))
  {
    forall c | c in Decimal(n)
      ensures !White(c) && c != SLASH && c != QUOTE
    {
      if !IsDigit(c) {
        DigitsOnly(if n < 0 then -n else n, c);
      }
    }
    PlainStays(Decimal(n));
  }

  /** What only the formatted text has goes; what comes before it may stay. */
  lemma LayoutGoes(w: CString, layout: CString)
    requires forall c | c in w :: !White(c) && c != SLASH && c != QUOTE
    requires forall c | c in layout :: White(c)
    ensures Becomes(w + If(true, layout), w + If(false, layout))
  {
    hide Becomes;
    PlainStays(w);
    WhiteGoes(layout);
    BecomesJoin(w, w, layout, []);
  }

  /** The formatted text of a tree minifies to its unformatted text. */
  lemma {:induction false} PrintedBecomes(t: Json, depth: nat)
    requires Printable(t)
    ensures Becomes(Print(t, depth, true), Print(t, depth, false))
    decreases t
  {
    hide Becomes, Quoted, Decimal;
    match t
    case Null => PlainStays(NULL_TEXT);
    case False => PlainStays(FALSE_TEXT);
    case True => PlainStays(TRUE_TEXT);
    case Number(d) => DecimalStays(d.Floor);
    case String(s) => QuotedStays(s);
    case Array(xs) =>
      var a, b := PrintItems(xs, depth + 1, true), PrintItems(xs, depth + 1, false);
      PlainStays([LBRACKET]);
      PlainStays([RBRACKET]);
      ItemsBecome(xs, depth + 1);
      BecomesJoin([LBRACKET], [LBRACKET], a, b);
      BecomesJoin([LBRACKET] + a, [LBRACKET] + b, [RBRACKET], [RBRACKET]);
    case Object(ms) =>
      var a, b := PrintFields(ms, depth + 1, true), PrintFields(ms, depth + 1, false);
      var open, open1 := [LBRACE] + If(true, [NEWLINE]), [LBRACE] + If(false, [NEWLINE]);
      LayoutGoes([LBRACE], [NEWLINE]);
      LayoutGoes([], Tabs(depth));
      PlainStays([RBRACE]);
      FieldsBecome(ms, depth + 1);
      BecomesJoin(open, open1, a, b);
      BecomesJoin(open + a, open1 + b, [] + If(true, Tabs(depth)), [] + If(false, Tabs(depth)));
      assert [] + If(true, Tabs(depth)) == If(true, Tabs(depth));
      assert [] + If(false, Tabs(depth)) == If(false, Tabs(depth));
      BecomesJoin(open + a + If(true, Tabs(depth)), open1 + b + If(false, Tabs(depth)), [RBRACE], [RBRACE]);
  }

  lemma {:induction false} ItemsBecome(xs: seq<Json>, depth: nat)
    requires PrintableItems(xs)
    ensures Becomes(PrintItems(xs, depth, true), PrintItems(xs, depth, false))
    decreases xs
  {
    hide Becomes, Print;
    if xs == [] {
      BecomesNothing();
    } else {
      var x, x1 := Print(xs[0], depth, true), Print(xs[0], depth, false);
      var more := |xs| > 1;
      PrintedBecomes(xs[0], depth);
      if more {
        LayoutGoes([COMMA], [SPACE]);
      } else {
        BecomesNothing();
      }
      ItemsBecome(xs[1..], depth);
      BecomesJoin(x, x1, ItemSeparator(more, true), ItemSeparator(more, false));
      BecomesJoin(x + ItemSeparator(more, true), x1 + ItemSeparator(more, false),
                  PrintItems(xs[1..], depth, true), PrintItems(xs[1..], depth, false));
    }
  }

  lemma {:induction false} FieldsBecome(ms: seq<Member>, depth: nat)
    requires PrintableFields(ms)
    ensures Becomes(PrintFields(ms, depth, true), PrintFields(ms, depth, false))
    decreases ms
  {
    hide Becomes, PrintField;
    if ms == [] {
      BecomesNothing();
    } else {
      FieldBecomes(ms[0], |ms| > 1, depth);
      FieldsBecome(ms[1..], depth);
      BecomesJoin(PrintField(ms[0], |ms| > 1, depth, true), PrintField(ms[0], |ms| > 1, depth, false),
                  PrintFields(ms[1..], depth, true), PrintFields(ms[1..], depth, false));
    }
  }

  lemma {:induction false} FieldBecomes(m: Member, more: bool, depth: nat)
    requires Printable(m.value)
    ensures Becomes(PrintField(m, more, depth, true), PrintField(m, more, depth, false))
    decreases m
  {
    hide Becomes, Print, Quoted, Tabs;
    var v, v1 := Print(m.value, depth, true), Print(m.value, depth, false);
    TabsWhite(depth);
    LayoutGoes([], Tabs(depth));
    var a, a1 := If(true, Tabs(depth)), If(false, Tabs(depth));
    assert [] + a == a && [] + a1 == a1;
    QuotedStays(m.name);
    BecomesJoin(a, a1, Quoted(m.name), Quoted(m.name));
    LayoutGoes([COLON], [TAB]);
    var b, b1 := a + Quoted(m.name), a1 + Quoted(m.name);
    BecomesJoin(b, b1, [COLON] + If(true, [TAB]), [COLON] + If(false, [TAB]));
    PrintedBecomes(m.value, depth);
    var c, c1 := b + ([COLON] + If(true, [TAB])), b1 + ([COLON] + If(false, [TAB]));
    BecomesJoin(c, c1, v, v1);
    LayoutGoes(if more then [COMMA] else [], [NEWLINE]);
    BecomesJoin(c + v, c1 + v1, FieldSeparator(more, true), FieldSeparator(more, false));
    assert c == b + [COLON] + If(true, [TAB]) && c1 == b1 + [COLON] + If(false, [TAB]);
  }

  lemma TabsWhite(n: nat)
    ensures forall c | c in Tabs(n) :: White(c)
  {}

  /** Minifying the formatted text of a tree gives exactly its unformatted text. */
  lemma MinifyUnformats(t: Json)
    requires Printable(t)
    ensures Minify(Print(t, 0, true)) == Some(Print(t, 0, false))
  {
    hide Print;
    PrintedBecomes(t, 0);
    assert Minify([]) == Some([]);
    assert Print(t, 0, true) + [] == Print(t, 0, true) && Print(t, 0, false) + [] == Print(t, 0, false);
  }

  // ----- in place

  /** The array still holds the text from `json` on, and its terminator. */
  ghost predicate Remains(a: array<byte>, s: CString, json: nat)
    reads a
  {
    |s| < a.Length && forall k | json <= k <= |s| :: a[k] == At(s, k)
  }

  /** `*into++ = *json++`; writing never passes reading. */
  method CopyByte(a: array<byte>, into: nat, json: nat, ghost s: CString, ghost done: CString)
    requires Holds(a, done) && into == |done| <= json < |s| && Remains(a, s, json)
    modifies a
    ensures Holds(a, done + [s[json]]) && Remains(a, s, json + 1)
  {
    a[into] := a[json];
  }

  method SkipLine(a: array<byte>, json: nat, ghost s: CString) returns (end: nat)
    requires json < |s| && Remains(a, s, json)
    ensures json <= end <= |s| && s[end..] == LineEnd(s[json..]) && (s[json] != NEWLINE ==> json < end)
  {
    end := json;
    while a[end] != 0 && a[end] != NEWLINE
      invariant json <= end <= |s| && LineEnd(s[end..]) == LineEnd(s[json..])
      decreases |s| - end
    {
      assert s[end..][1..] == s[end + 1..];
      end := end + 1;
    }
  }

  method SkipComment(a: array<byte>, json: nat, ghost s: CString) returns (end: nat)
    requires json < |s| && Remains(a, s, json) && CommentEnd(s[json..]).Some?
    ensures json < end <= |s| && Some(s[end..]) == CommentEnd(s[json..])
  {
    end := json;
    while a[end] != 0 && !(a[end] == STAR && a[end + 1] == SLASH)
      invariant json <= end <= |s| && CommentEnd(s[end..]) == CommentEnd(s[json..])
      decreases |s| - end
    {
      assert s[end..][1..] == s[end + 1..];
      end := end + 1;
    }
    assert end < |s| && s[end..][2..] == s[end + 2..];
    end := end + 2;
  }

  lemma ScanStep(s: CString, i: nat)
    requires i < |s| && s[i] != QUOTE && Scan(s[i..]).Some?
    ensures var k := if s[i] == BACKSLASH then 2 else 1;
      && i + k <= |s| && Scan(s[i + k..]).Some?
      && i + Scan(s[i..]).value.0 == i + k + Scan(s[i + k..]).value.0
  {
    var k := if s[i] == BACKSLASH then 2 else 1;
    assert s[i..][k..] == s[i + k..];
  }

  lemma ScanStops(s: CString, i: nat)
    requires i <= |s| && Scan(s[i..]).Some?
    ensures i + Scan(s[i..]).value.0 <= |s|
    ensures i < |s| && s[i] != QUOTE <==> Scan(s[i..]).value.0 > 0
  {
    ScanWithin(s[i..]);
  }

  lemma MinifyLiteral(s: CString, i: nat)
    requires i < |s| && s[i] == QUOTE && Minify(s[i..]).Some?
    ensures Scan(s[i + 1..]).Some?
    ensures var end := i + 2 + Scan(s[i + 1..]).value.0;
      end <= |s| && Minify(s[i..]) == Prepend(s[i..end], Minify(s[end..]))
  {
    hide Scan;
    var rest := s[i..];
    ScanWithin(rest[1..]);
    assert rest[1..] == s[i + 1..];
    var n := Scan(s[i + 1..]).value.0;
    if n + 2 <= |rest| {
      assert rest[..n + 2] == s[i..i + n + 2] && rest[n + 2..] == s[i + n + 2..];
    }
  }

  /** One or two bytes of a literal. */
  method CopyUnit(a: array<byte>, into: nat, json: nat, n: nat, ghost s: CString, ghost done: CString)
    requires Holds(a, done) && into == |done| <= json && Remains(a, s, json) && 1 <= n <= 2 && json + n <= |s|
    modifies a
    ensures Holds(a, done + s[json..json + n]) && Remains(a, s, json + n)
  {
    CopyByte(a, into, json, s, done);
    assert s[json..json + 1] == [s[json]];
    if n == 2 {
      CopyByte(a, into + 1, json + 1, s, done + [s[json]]);
      assert done + s[json..json + 2] == done + [s[json]] + [s[json + 1]];
    }
  }

  /** One turn of the loop over a literal. */
  method CopyLiteralByte(a: array<byte>, into: nat, json: nat, ghost s: CString, ghost done: CString, ghost start: nat)
    returns (into1: nat, json1: nat)
    requires start <= json < |s| && s[json] != QUOTE && Scan(s[json..]).Some? && Remains(a, s, json)
    requires Holds(a, done + s[start..json]) && into == |done| + json - start <= json
    modifies a
    ensures json < json1 <= |s| && Scan(s[json1..]).Some? && Remains(a, s, json1)
    ensures json1 + Scan(s[json1..]).value.0 == json + Scan(s[json..]).value.0
    ensures Holds(a, done + s[start..json1]) && into1 == |done| + json1 - start
  {
    hide Scan;
    ScanStep(s, json);
    var n := if a[json] == BACKSLASH then 2 else 1;
    CopyUnit(a, into, json, n, s, done + s[start..json]);
    Sliced(s, start, json, json + n, done);
    into1, json1 := into + n, json + n;
  }

  /** Copies a string literal up to its closing quote. */
  method CopyLiteral(a: array<byte>, into: nat, json: nat, ghost s: CString, ghost done: CString)
    returns (into1: nat, json1: nat)
    requires Holds(a, done) && into == |done| <= json < |s| && Remains(a, s, json) && s[json] == QUOTE
    requires Scan(s[json + 1..]).Some? && json + 1 + Scan(s[json + 1..]).value.0 < |s|
    modifies a
    ensures json1 == json + 2 + Scan(s[json + 1..]).value.0 <= |s| && Remains(a, s, json1)
    ensures Holds(a, done + s[json..json1]) && into1 == |done| + json1 - json
  {
    hide Scan;
    ghost var end := json + 1 + Scan(s[json + 1..]).value.0;
    CopyUnit(a, into, json, 1, s, done);
    into1, json1 := into + 1, json + 1;
    ScanStops(s, json1);
    while a[json1] != 0 && a[json1] != QUOTE
      invariant json < json1 <= end && into1 == |done| + json1 - json
      invariant Scan(s[json1..]).Some? && json1 + Scan(s[json1..]).value.0 == end
      invariant Holds(a, done + s[json..json1]) && Remains(a, s, json1)
      decreases end - json1
    {
      into1, json1 := CopyLiteralByte(a, into1, json1, s, done, json);
    }
    ScanStops(s, json1);
    CopyUnit(a, into1, json1, 1, s, done + s[json..json1]);
    Sliced(s, json, json1, json1 + 1, done);
    into1, json1 := into1 + 1, json1 + 1;
  }

  lemma Sliced(s: CString, i: nat, j: nat, k: nat, done: CString)
    requires i <= j <= k <= |s|
    ensures done + s[i..j] + s[j..k] == done + s[i..k]
  {}

  /** `cJSON_Minify`, on a text in which it does not step over the terminator. */
  method MinifyInPlace(a: array<byte>, ghost s: CString)
    requires Remains(a, s, 0) && (EndState(s, Plain) == Plain || EndState(s, Plain) == InLine)
    modifies a
    ensures Minify(s).Some? && Text(a, Minify(s).value)
  {
    hide Minify, Prepend, LineEnd, CommentEnd, Scan, EndState;
    MinifyOverruns(s);
    var json, into := 0, 0;
    ghost var done: CString := [];
    StartState(s);
    while a[json] != 0
      invariant into == |done| <= json <= |s| && Holds(a, done) && Remains(a, s, json)
      invariant Minify(s[json..]).Some? && Prepend(done, Minify(s[json..])) == Minify(s)
      decreases |s| - json
    {
      MinifyStep(s, json);
      if White(a[json]) {
        json := json + 1;
      } else if a[json] == SLASH && a[json + 1] == SLASH {
        json := SkipLine(a, json, s);
      } else if a[json] == SLASH && a[json + 1] == STAR {
        json := SkipComment(a, json, s);
      } else if a[json] == QUOTE {
        MinifyLiteral(s, json);
        ghost var start := json;
        into, json := CopyLiteral(a, into, json, s, done);
        PrependTwice(done, s[start..json], Minify(s[json..]));
        PrependSome(s[start..json], Minify(s[json..]));
        done := done + s[start..json];
      } else {
        CopyByte(a, into, json, s, done);
        PrependTwice(done, [s[json]], Minify(s[json + 1..]));
        PrependSome([s[json]], Minify(s[json + 1..]));
        done := done + [s[json]];
        into, json := into + 1, json + 1;
      }
    }
    FinalState(s, s[json..], done);
    Put(a, into, 0, done);
  }

  lemma PrependSome(p: CString, r: Option<CString>)
    ensures Prepend(p, r).Some? <==> r.Some?
  {}

  lemma MinifyStep(s: CString, i: nat)
    requires i < |s| && Minify(s[i..]).Some?
    ensures White(s[i]) ==> Minify(s[i..]) == Minify(s[i + 1..])
    ensures s[i] == SLASH && At(s, i + 1) == SLASH ==> Minify(s[i..]) == Minify(LineEnd(s[i..]))
    ensures s[i] == SLASH && At(s, i + 1) == STAR ==>
              CommentEnd(s[i..]).Some? && Minify(s[i..]) == Minify(CommentEnd(s[i..]).value)
    ensures !White(s[i]) && s[i] != QUOTE && !(s[i] == SLASH && (At(s, i + 1) == SLASH || At(s, i + 1) == STAR)) ==>
              Minify(s[i..]) == Prepend([s[i]], Minify(s[i + 1..]))
  {
    hide Scan;
    assert s[i..][1..] == s[i + 1..] && At(s[i..], 1) == At(s, i + 1);
  }

  lemma FinalState(s: CString, rest: CString, done: CString)
    requires rest == [] && Prepend(done, Minify(rest)) == Minify(s)
    ensures Minify(s) == Some(done)
  {
    assert done + [] == done;
  }

  lemma StartState(s: CString)
    requires Minify(s).Some?
    ensures s[0..] == s && Prepend([], Minify(s)) == Minify(s)
  {
    assert [] + Minify(s).value == Minify(s).value;
  }
}
