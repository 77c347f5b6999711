/** JSON Pointer (RFC 6901): encoding names, building a pointer to a node and following it. */
module Pointers {
  import opened Bytes
  import opened Numerals
  import opened Options
  import opened Sorting
  import opened Trees

  /** A node of a tree, as the child indices on the way down to it. */
  type Position = seq<nat>

  function Children(t: Json): nat {
    match t
    case Array(xs) => |xs|
    case Object(ms) => |ms|
    case _ => 0
  }

  function Child(t: Json, i: nat): (c: Json)
    requires i < Children(t)
    ensures c < t
  {
    match t
    case Array(xs) => xs[i]
    case Object(ms) => assert ms[i] in ms; ms[i].value
  }

  predicate ValidPosition(t: Json, p: Position) {
    p == [] || (p[0] < Children(t) && ValidPosition(Child(t, p[0]), p[1..]))
  }

  function Subtree(t: Json, p: Position): Json
    requires ValidPosition(t, p)
  {
    if p == [] then t else Subtree(Child(t, p[0]), p[1..])
  }

  function SetChild(t: Json, i: nat, v: Json): Json
    requires i < Children(t)
  {
    match t
    case Array(xs) => Array(xs[i := v])
    case Object(ms) => Object(ms[i := ms[i].(value := v)])
  }

  function SetSubtree(t: Json, p: Position, v: Json): Json
    requires ValidPosition(t, p)
  {
    if p == [] then v else SetChild(t, p[0], SetSubtree(Child(t, p[0]), p[1..], v))
  }

  // ----- names in pointers

  /** `cJSONUtils_PointerEncodedstrcpy`: `~` becomes `~0` and `/` becomes `~1`. */
  function Encode(s: CString): CString {
    if s == [] then []
    else (if s[0] == SLASH then [TILDE, ZERO + 1] else if s[0] == TILDE then [TILDE, ZERO] else [s[0]]) + Encode(s[1..])
  }

  /** `cJSONUtils_InplaceDecodePointerString`; None when a final `~` makes it step over the terminator. */
  function DecodeName(s: CString): Option<CString> {
    if s == [] then Some([])
    else if s[0] == TILDE && |s| < 2 then None
    else
      var c := if s[0] != TILDE then s[0] else if s[1] == ZERO then TILDE else SLASH;
      match DecodeName(s[if s[0] == TILDE then 2 else 1..])
      case None => None
      case Some(r) => Some([c] + r)
  }

  /** Decoding in place steps over the terminator exactly after an odd number of final `~`. */
  lemma {:induction false} DecodeOverruns(s: CString)
    ensures DecodeName(s).None? <==> TrailingRun(s, TILDE) % 2 == 1
    decreases |s|
  {
    if s != [] && (s[0] == TILDE ==> |s| >= 2) {
      UnitRun(s, TILDE);
      DecodeOverruns(s[if s[0] == TILDE then 2 else 1..]);
    } else if s != [] {
      assert s[..0] == [] && TrailingRun(s, TILDE) == 1;
    }
  }

  /** One final `~` overruns, two do not. */
  lemma OverrunExample()
    ensures DecodeName([TILDE]).None? && DecodeName([TILDE, TILDE]) == Some([SLASH])
  {
    var two: CString := [TILDE, TILDE];
    assert two[2..] == [] && DecodeName([]) == Some([]);
    assert [SLASH] + [] == [SLASH];
  }

  /** `cJSONUtils_Pstrcasecmp`: the name `a` against the encoded name at the start of `e`. */
  predicate NameMatches(a: CString, e: CString) {
    if a == [] || e == [] || e[0] == SLASH then (e != [] && e[0] != SLASH) == (a != [])
    else if e[0] == TILDE then
      ((At(e, 1) == ZERO && a[0] == TILDE) || (At(e, 1) == ZERO + 1 && a[0] == SLASH)) && NameMatches(a[1..], e[2..])
    else Lower(a[0]) == Lower(e[0]) && NameMatches(a[1..], e[1..])
  }

  /** Decoding undoes encoding, for every string. */
  lemma {:induction false} DecodeEncode(s: CString)
    ensures DecodeName(Encode(s)) == Some(s)
  {
    if s != [] {
      DecodeEncode(s[1..]);
      var e := Encode(s);
      assert s == [s[0]] + s[1..];
      assert e[if e[0] == TILDE then 2 else 1..] == Encode(s[1..]);
    }
  }

  lemma {:induction false} EncodeNoSlash(s: CString)
    ensures SLASH !in Encode(s)
  {
    if s != [] {
      EncodeNoSlash(s[1..]);
    }
  }

  /** Text that can follow a token: nothing, or the next token. */
  predicate AtToken(p: CString) {
    p == [] || p[0] == SLASH
  }

  /** An encoded name matches exactly the names that are equal to it ignoring ASCII case. */
  lemma {:induction false} MatchesEncoded(a: CString, b: CString, post: CString)
    requires AtToken(post)
    ensures NameMatches(a, Encode(b) + post) <==> LowerAll(a) == LowerAll(b)
  {
    var e := Encode(b) + post;
    if a != [] && b != [] {
      MatchesEncoded(a[1..], b[1..], post);
      assert e[if e[0] == TILDE then 2 else 1..] == Encode(b[1..]) + post;
      LowerAllDrop(a);
      LowerAllDrop(b);
      assert LowerAll(a) == [LowerAll(a)[0]] + LowerAll(a[1..]) && LowerAll(b) == [LowerAll(b)[0]] + LowerAll(b[1..]);
    } else if b == [] {
      assert e == post;
    }
  }

  // ----- following a pointer

  function FindMatch(ms: seq<Member>, p: CString): (i: nat)
    ensures i <= |ms|
    ensures i < |ms| ==> NameMatches(ms[i].name, p)
    ensures forall j :: 0 <= j < i ==> !NameMatches(ms[j].name, p)
  {
    if ms == [] || NameMatches(ms[0].name, p) then 0
    else
      var i := FindMatch(ms[1..], p);
      assert forall j :: 0 < j < i + 1 ==> ms[j] == ms[1..][j - 1];
      i + 1
  }

  function AfterToken(p: CString): (r: CString)
    ensures |r| <= |p| && AtToken(r)
  {
    if AtToken(p) then p else AfterToken(p[1..])
  }

  function Below(i: nat, p: Option<Position>): Option<Position> {
    match p
    case Some(q) => Some([i] + q)
    case None => None
  }

  /** `cJSONUtils_GetPointer`. Text that does not start with `/` points where it stands. */
  function GetPointer(t: Json, p: CString): (r: Option<Position>)
    ensures r.Some? ==> ValidPosition(t, r.value)
    decreases |p|
  {
    if p == [] || p[0] != SLASH then Some([])
    else match t
      case Array(xs) =>
        var (which, rest) := ReadDigits(p[1..], 0);
        if !AtToken(rest) || which >= |xs| then None else Below(which, GetPointer(xs[which], rest))
      case Object(ms) =>
        var i := FindMatch(ms, p[1..]);
        if i == |ms| then None else Below(i, GetPointer(ms[i].value, AfterToken(p[1..])))
      case _ => None
  }

  /** The token that names child `i`: its index, or its encoded name. */
  function Token(t: Json, i: nat): CString
    requires i < Children(t)
  {
    [SLASH] + match t
              case Array(_) => Digits(i)
              case Object(ms) => Encode(ms[i].name)
  }

  lemma {:induction false} AfterTokenSkips(s: CString, p: CString)
    requires SLASH !in s && AtToken(p)
    ensures AfterToken(s + p) == p
  {
    if s != [] {
      AfterTokenSkips(s[1..], p);
      assert (s + p)[1..] == s[1..] + p;
    } else {
      assert s + p == p;
    }
  }

  lemma MatchIsUnique(ms: seq<Member>, i: nat, name: CString, p: CString)
    requires Distinct(ms, Folded) && i < |ms| && Folded(ms[i]) == LowerAll(name) && AtToken(p)
    ensures FindMatch(ms, Encode(name) + p) == i
  {
    var q := Encode(name) + p;
    var j := FindMatch(ms, q);
    MatchesEncoded(ms[i].name, name, p);
    if j < |ms| {
      MatchesEncoded(ms[j].name, name, p);
      assert Folded(ms[j]) == Folded(ms[i]);
    }
  }

  /** A member's encoded name, in any case, leads to that member. */
  lemma FollowName(ms: seq<Member>, i: nat, name: CString, p: CString)
    requires Distinct(ms, Folded) && i < |ms| && Folded(ms[i]) == LowerAll(name) && AtToken(p)
    ensures GetPointer(Object(ms), [SLASH] + Encode(name) + p) == Below(i, GetPointer(ms[i].value, p))
  {
    var q := [SLASH] + Encode(name) + p;
    assert q[1..] == Encode(name) + p;
    MatchIsUnique(ms, i, name, p);
    EncodeNoSlash(name);
    AfterTokenSkips(Encode(name), p);
  }

  lemma FollowIndex(xs: seq<Json>, i: nat, p: CString)
    requires i < |xs| && AtToken(p)
    ensures GetPointer(Array(xs), [SLASH] + Digits(i) + p) == Below(i, GetPointer(xs[i], p))
  {
    ReadDigitsBack(i, p);
    hide Digits;
    var q := [SLASH] + Digits(i) + p;
    assert q[1..] == Digits(i) + p;
    assert ReadDigits(p, i) == (i, p);
  }

  // ----- building a pointer

  function Joined(t: Json, i: nat, found: Option<CString>): Option<CString>
    requires i < Children(t)
  {
    match found
    case Some(p) => Some(Token(t, i) + p)
    case None => None
  }

  /** `cJSONUtils_FindPointerFromObjectTo`, the node at `here` searching for the node at `target`. */
  function FindPointer(t: Json, here: Position, target: Position): Option<CString>
    decreases t, Children(t) + 1
  {
    if here == target then Some([]) else FindBelow(t, 0, here, target)
  }

  function FindBelow(t: Json, c: nat, here: Position, target: Position): Option<CString>
    requires c <= Children(t)
    decreases t, Children(t) - c
  {
    if c == Children(t) then None
    else
      var found := Joined(t, c, FindPointer(Child(t, c), here + [c], target));
      if found.Some? then found else FindBelow(t, c + 1, here, target)
  }

  function PointerTo(t: Json, p: Position): CString
    requires ValidPosition(t, p)
  {
    if p == [] then [] else Token(t, p[0]) + PointerTo(Child(t, p[0]), p[1..])
  }

  lemma {:induction false} FoundBelowHere(t: Json, here: Position, target: Position)
    requires FindPointer(t, here, target).Some?
    ensures here <= target && ValidPosition(t, target[|here|..])
    decreases t, Children(t) + 1
  {
    if here != target {
      FoundBelowFrom(t, 0, here, target);
    }
  }

  lemma {:induction false} FoundBelowFrom(t: Json, c: nat, here: Position, target: Position)
    requires c <= Children(t) && FindBelow(t, c, here, target).Some?
    ensures here <= target && ValidPosition(t, target[|here|..])
    decreases t, Children(t) - c
  {
    if FindPointer(Child(t, c), here + [c], target).Some? {
      FoundBelowHere(Child(t, c), here + [c], target);
      assert target[|here|] == (here + [c])[|here|];
      assert here <= here + [c] <= target;
      assert target[|here|..][1..] == target[|here + [c]|..];
    } else {
      FoundBelowFrom(t, c + 1, here, target);
    }
  }

  lemma {:induction false} FindsTarget(t: Json, here: Position, p: Position)
    requires ValidPosition(t, p)
    ensures FindPointer(t, here, here + p) == Some(PointerTo(t, p))
    decreases t, Children(t) + 1
  {
    if p == [] {
      assert here + p == here;
    } else {
      FindsChild(t, 0, here, p);
    }
  }

  lemma {:induction false} FindsChild(t: Json, c: nat, here: Position, p: Position)
    requires p != [] && ValidPosition(t, p) && c <= p[0]
    ensures FindBelow(t, c, here, here + p) == Some(PointerTo(t, p))
    decreases t, Children(t) - c
  {
    var target := here + p;
    if c == p[0] {
      FindsTarget(Child(t, c), here + [c], p[1..]);
      assert here + [c] + p[1..] == target;
    } else {
      assert !(here + [c] <= target) by {
        assert (here + [c])[|here|] == c && target[|here|] == p[0];
      }
      if FindPointer(Child(t, c), here + [c], target).Some? {
        FoundBelowHere(Child(t, c), here + [c], target);
      }
      FindsChild(t, c + 1, here, p);
    }
  }

  lemma {:induction false} FollowPointerTo(t: Json, p: Position)
    requires WellNamed(t) && ValidPosition(t, p)
    ensures GetPointer(t, PointerTo(t, p)) == Some(p) && AtToken(PointerTo(t, p))
  {
    if p != [] {
      var i, c := p[0], Child(t, p[0]);
      ChildWellNamed(t, i);
      FollowPointerTo(c, p[1..]);
      match t {
        case Array(xs) => FollowIndex(xs, i, PointerTo(c, p[1..]));
        case Object(ms) => FollowName(ms, i, ms[i].name, PointerTo(c, p[1..]));
      }
      assert p == [i] + p[1..];
    }
  }

  lemma {:induction false} ItemWellNamed(xs: seq<Json>, i: nat)
    requires ItemsWellNamed(xs) && i < |xs|
    ensures WellNamed(xs[i])
  {
    if i > 0 {
      ItemWellNamed(xs[1..], i - 1);
    }
  }

  lemma ChildWellNamed(t: Json, i: nat)
    requires WellNamed(t) && i < Children(t)
    ensures WellNamed(Child(t, i))
  {
    match t
    case Array(xs) => ItemWellNamed(xs, i);
    case Object(ms) => assert ms[i] in ms;
  }

  /** A pointer is built exactly to the nodes of the tree, and following it leads to that node and no other. */
  lemma PointerRoundTrip(t: Json, target: Position)
    requires WellNamed(t)
    ensures FindPointer(t, [], target).Some? <==> ValidPosition(t, target)
    ensures ValidPosition(t, target) ==> GetPointer(t, FindPointer(t, [], target).value) == Some(target)
  {
    if FindPointer(t, [], target).Some? {
      FoundBelowHere(t, [], target);
      assert target[0..] == target;
    }
    if ValidPosition(t, target) {
      FindsTarget(t, [], target);
      assert [] + target == target;
      FollowPointerTo(t, target);
    }
  }
}
