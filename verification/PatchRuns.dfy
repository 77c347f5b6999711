/** The patch code as it runs: pointers advance, names are decoded in place, a list and a document change. */
module PatchRuns {
  import opened Bytes
  import opened CMemory
  import opened Comparing
  import opened Members
  import opened Numerals
  import opened Options
  import opened PatchLinks
  import opened PatchMeaning
  import opened Patching
  import opened Pointers
  import opened Sequences
  import opened Trees

  // ----- following a pointer

  function Prefix(front: Position, p: Option<Position>): Option<Position> {
    match p
    case Some(q) => Some(front + q)
    case None => None
  }

  lemma PrefixBelow(front: Position, i: nat, p: Option<Position>)
    ensures Prefix(front, Below(i, p)) == Prefix(front + [i], p)
  {
    if p.Some? {
      assert front + ([i] + p.value) == front + [i] + p.value;
    }
  }

  lemma PrefixNone(p: Option<Position>)
    ensures Prefix([], p) == p
  {
    if p.Some? {
      assert [] + p.value == p.value;
    }
  }

  lemma PointerIntoArray(xs: seq<Json>, text: CString, i: nat, which: nat, k: nat)
    requires i < |text| && text[i] == SLASH && k <= |text| && ReadDigits(text[i + 1..], 0) == (which, text[k..])
    ensures GetPointer(Array(xs), text[i..]) ==
      if (k < |text| && text[k] != SLASH) || which >= |xs| then None else Below(which, GetPointer(xs[which], text[k..]))
  {
    assert text[i..][1..] == text[i + 1..];
  }

  lemma PointerIntoObject(ms: seq<Member>, text: CString, i: nat, k: nat)
    requires i < |text| && text[i] == SLASH && k <= |text| && text[k..] == AfterToken(text[i + 1..])
    ensures var m := FindMatch(ms, text[i + 1..]);
      GetPointer(Object(ms), text[i..]) == if m == |ms| then None else Below(m, GetPointer(ms[m].value, text[k..]))
  {
    assert text[i..][1..] == text[i + 1..];
  }

  lemma PointerStops(t: Json, text: CString, i: nat)
    requires i <= |text|
    ensures i == |text| || text[i] != SLASH ==> GetPointer(t, text[i..]) == Some([])
    ensures i < |text| && text[i] == SLASH && !t.Container() ==> GetPointer(t, text[i..]) == None
  {}

  /** The loop of `cJSONUtils_GetPointer`: `node` moves down while `pointer` moves along the text. */
  method FollowPointer(root: Json, text: CString) returns (r: Option<Position>)
    ensures r == GetPointer(root, text)
  {
    hide GetPointer;
    var node, pointer, here := root, 0, [];
    assert text[0..] == text;
    PrefixNone(GetPointer(root, text));
    while pointer < |text| && text[pointer] == SLASH
      invariant pointer <= |text|
      invariant GetPointer(root, text) == Prefix(here, GetPointer(node, text[pointer..]))
      decreases |text| - pointer
    {
      PointerStops(node, text, pointer);
      match node
      case Array(xs) =>
        var which, after := ReadIndex(text, pointer + 1);
        PointerIntoArray(xs, text, pointer, which, after);
        if (after < |text| && text[after] != SLASH) || which >= |xs| {
          return None;
        }
        pointer := after;
        PrefixBelow(here, which, GetPointer(xs[which], text[pointer..]));
        node, here := xs[which], here + [which];
      case Object(ms) =>
        var i := FindMember(ms, text[pointer + 1..]);
        var after := SkipToken(text, pointer + 1);
        PointerIntoObject(ms, text, pointer, after);
        if i == |ms| {
          return None;
        }
        pointer := after;
        PrefixBelow(here, i, GetPointer(ms[i].value, text[pointer..]));
        node, here := ms[i].value, here + [i];
      case _ =>
        return None;
    }
    PointerStops(node, text, pointer);
    assert here + [] == here;
    return Some(here);
  }

  method ReadIndex(text: CString, start: nat) returns (which: nat, pointer: nat)
    requires start <= |text|
    ensures start <= pointer <= |text| && ReadDigits(text[start..], 0) == (which, text[pointer..])
  {
    which, pointer := 0, start;
    while pointer < |text| && IsDigit(text[pointer])
      invariant start <= pointer <= |text|
      invariant ReadDigits(text[start..], 0) == ReadDigits(text[pointer..], which)
    {
      assert text[pointer..][1..] == text[pointer + 1..];
      which, pointer := 10 * which + (text[pointer] - ZERO), pointer + 1;
    }
  }

  method SkipToken(text: CString, start: nat) returns (pointer: nat)
    requires start <= |text|
    ensures start <= pointer <= |text| && text[pointer..] == AfterToken(text[start..])
  {
    pointer := start;
    while pointer < |text| && text[pointer] != SLASH
      invariant start <= pointer <= |text| && AfterToken(text[pointer..]) == AfterToken(text[start..])
    {
      assert text[pointer..][1..] == text[pointer + 1..];
      pointer := pointer + 1;
    }
  }

  method FindMember(ms: seq<Member>, token: CString) returns (i: nat)
    ensures i == FindMatch(ms, token)
  {
    i := 0;
    while i < |ms|
      invariant i <= |ms| && FindMatch(ms, token) == i + FindMatch(ms[i..], token)
    {
      var same := MatchName(ms[i].name, token);
      if same {
        return;
      }
      assert ms[i..][1..] == ms[i + 1..];
      i := i + 1;
    }
  }

  /** `cJSONUtils_Pstrcasecmp`: two indices advance, the second by two over an escape. */
  method MatchName(a: CString, e: CString) returns (same: bool)
    ensures same == NameMatches(a, e)
  {
    var i, j := 0, 0;
    while i < |a| && j < |e| && e[j] != SLASH
      invariant i <= |a| && j <= |e| && NameMatches(a, e) == NameMatches(a[i..], e[j..])
    {
      assert a[i..][1..] == a[i + 1..] && e[j..][1..] == e[j + 1..];
      assert j + 2 <= |e| ==> e[j..][2..] == e[j + 2..];
      assert At(e[j..], 1) == At(e, j + 1);
      if e[j] == TILDE {
        if !(At(e, j + 1) == ZERO && a[i] == TILDE) && !(At(e, j + 1) == ZERO + 1 && a[i] == SLASH) {
          return false;
        }
        j := j + 1;
      } else if Lower(a[i]) != Lower(e[j]) {
        return false;
      }
      i, j := i + 1, j + 1;
    }
    return (j < |e| && e[j] != SLASH) == (i < |a|);
  }

  function DecodedChar(s: CString, i: nat): Char
    requires i < |s|
  {
    if s[i] != TILDE then s[i] else if At(s, i + 1) == ZERO then TILDE else SLASH
  }

  lemma DecodeStep(s: CString, i: nat, out: CString)
    requires i < |s| && DecodeName(s[i..]).Some? && DecodeName(s) == Some(out + DecodeName(s[i..]).value)
    ensures var n := if s[i] == TILDE then i + 2 else i + 1;
      && n <= |s| && DecodeName(s[n..]).Some?
      && DecodeName(s) == Some(out + [DecodedChar(s, i)] + DecodeName(s[n..]).value)
  {
    var rest := s[i..];
    var n := if s[i] == TILDE then i + 2 else i + 1;
    assert rest[n - i..] == s[n..];
    Associative(out, [DecodedChar(s, i)], DecodeName(s[n..]).value);
  }

  /** `cJSONUtils_InplaceDecodePointerString`: the write index never passes the read index. */
  method InplaceDecode(a: array<byte>, ghost s: CString)
    requires Text(a, s) && TrailingRun(s, TILDE) % 2 == 0
    modifies a
    ensures DecodeName(s).Some? && Text(a, DecodeName(s).value)
    ensures a[|s|..] == old(a[|s|..])
  {
    hide DecodeName;
    DecodeOverruns(s);
    var into, from := 0, 0;
    ghost var out: CString := [];
    assert s[0..] == s && [] + DecodeName(s).value == DecodeName(s).value;
    assert forall k :: 0 <= k <= |s| ==> a[k] == a[..|s| + 1][k];
    while a[from] != 0
      invariant into <= from <= |s| < a.Length && into == |out|
      invariant forall k :: 0 <= k < into ==> a[k] == out[k]
      invariant forall k :: from <= k < |s| ==> a[k] == s[k]
      invariant forall k :: |s| <= k < a.Length ==> a[k] == old(a[k])
      invariant DecodeName(s[from..]).Some? && DecodeName(s) == Some(out + DecodeName(s[from..]).value)
      decreases |s| - from
    {
      DecodeStep(s, from, out);
      out := out + [DecodedChar(s, from)];
      if a[from] != TILDE {
        a[into] := a[from];
      } else {
        from := from + 1;
        a[into] := if a[from] == ZERO then TILDE else SLASH;
      }
      into, from := into + 1, from + 1;
    }
    DecodeEnd(s, from, out);
    a[into] := 0;
    ghost var text: seq<byte> := out;
    assert a[..into + 1] == text + [0];
  }

  lemma DecodeEnd(s: CString, i: nat, out: CString)
    requires i == |s| && DecodeName(s[i..]).Some? && DecodeName(s) == Some(out + DecodeName(s[i..]).value)
    ensures DecodeName(s) == Some(out)
  {
    assert s[i..] == [];
    assert out + [] == out;
  }

  lemma {:induction false} AsPatchesConcat(a: seq<Edit>, b: seq<Edit>)
    ensures AsPatches(a + b) == AsPatches(a) + AsPatches(b)
  {
    if a == [] {
      assert a + b == b;
    } else {
      AsPatchesConcat(a[1..], b);
      assert (a + b)[1..] == a[1..] + b;
    }
  }

  lemma ItemEditsStep(path: CString, c: nat, from: seq<Json>, to: seq<Json>)
    requires c < |from| && c < |to|
    ensures ItemEdits(path, c, from[c..], to[c..]) ==
      Edits(path + [SLASH] + Digits(c), from[c], to[c]) + ItemEdits(path, c + 1, from[c + 1..], to[c + 1..])
  {
    assert from[c..][1..] == from[c + 1..] && to[c..][1..] == to[c + 1..];
  }

  /** The patch array that generation fills. */
  class PatchList {
    var patches: seq<Json>

    constructor ()
      ensures patches == []
    {
      patches := [];
    }

    /** `cJSONUtils_GeneratePatch`. */
    method Add(kind: CString, path: CString, suffix: Option<CString>, value: Option<Json>)
      modifies this
      ensures var target := if suffix.Some? then Under(path, suffix.value) else path;
        patches == old(patches) + AsPatches([Edit(kind, target, value)])
    {
      var target := if suffix.Some? then path + [SLASH] + Encode(suffix.value) else path;
      var patch := [Member(OP, String(kind)), Member(PATH, String(target))];
      if value.Some? {
        patch := patch + [Member(VALUE, value.value)];
      }
      ghost var e := Edit(kind, target, value);
      assert Object(patch) == AsPatch(e) && AsPatches([e]) == [AsPatch(e)] + AsPatches([e][1..]);
      patches := patches + [Object(patch)];
    }

    /** `cJSONUtils_CompareToPatch` appends the edits from one tree to the other. */
    method CompareToPatch(path: CString, from: Json, to: Json)
      modifies this
      ensures patches == old(patches) + AsPatches(Edits(path, from, to))
      decreases Depth(from), 0, 1
    {
      if !SameType(from, to) {
        Add(REPLACE, path, None, Some(to));
        return;
      }
      match from
      case Number(d) =>
        if d != to.d {
          Add(REPLACE, path, None, Some(to));
        }
      case String(s) =>
        if s != to.s {
          Add(REPLACE, path, None, Some(to));
        }
      case Array(xs) =>
        CompareItemsToPatch(path, xs, to.items);
      case Object(ms) =>
        SortFacts(ms);
        CompareFieldsToPatch(path, SortMembers(ms), SortMembers(to.members));
      case _ =>
    }

    method CompareItemsToPatch(path: CString, from: seq<Json>, to: seq<Json>)
      modifies this
      ensures patches == old(patches) + AsPatches(ItemEdits(path, 0, from, to))
      decreases ItemsDepth(from), 1, 0
    {
      hide Edits, ItemEdits, Digits;
      var c := 0;
      ghost var done: seq<Edit> := [];
      assert from[0..] == from && to[0..] == to && done + ItemEdits(path, 0, from, to) == ItemEdits(path, 0, from, to);
      while c < |from| && c < |to|
        invariant c <= |from| && c <= |to|
        invariant ItemEdits(path, 0, from, to) == done + ItemEdits(path, c, from[c..], to[c..])
        invariant patches == old(patches) + AsPatches(done)
      {
        ItemEditsStep(path, c, from, to);
        ElementDepths(from, c);
        CompareToPatch(path + [SLASH] + Digits(c), from[c], to[c]);
        done := Extend(done, Edits(path + [SLASH] + Digits(c), from[c], to[c]),
                       ItemEdits(path, c + 1, from[c + 1..], to[c + 1..]), old(patches));
        c := c + 1;
      }
      AsPatchesConcat(done, ItemEdits(path, c, from[c..], to[c..]));
      if c < |from| {
        assert to[c..] == [];
        RemoveRest(path, c, from[c..]);
      } else {
        assert from[c..] == [];
        AddRest(path, c, to[c..]);
      }
    }

    /** The loop over the items that are too many. */
    method RemoveRest(path: CString, start: nat, from: seq<Json>)
      modifies this
      ensures patches == old(patches) + AsPatches(ItemEdits(path, start, from, []))
    {
      var i := 0;
      ghost var done: seq<Edit> := [];
      assert from[0..] == from && done + ItemEdits(path, start, from, []) == ItemEdits(path, start, from, []);
      while i < |from|
        invariant i <= |from|
        invariant ItemEdits(path, start, from, []) == done + ItemEdits(path, start + i, from[i..], [])
        invariant patches == old(patches) + AsPatches(done)
      {
        Add(REMOVE, path, Some(Digits(start + i)), None);
        done := Extend(done, [Edit(REMOVE, Under(path, Digits(start + i)), None)],
                       ItemEdits(path, start + i + 1, from[i + 1..], []), old(patches));
        assert from[i..][1..] == from[i + 1..];
        i := i + 1;
      }
      assert done + [] == done;
    }

    /** The loop over the items that are missing. */
    method AddRest(path: CString, start: nat, to: seq<Json>)
      modifies this
      ensures patches == old(patches) + AsPatches(ItemEdits(path, start, [], to))
    {
      var i := 0;
      ghost var done: seq<Edit> := [];
      assert to[0..] == to && done + ItemEdits(path, start, [], to) == ItemEdits(path, start, [], to);
      while i < |to|
        invariant i <= |to|
        invariant ItemEdits(path, start, [], to) == done + ItemEdits(path, start + i, [], to[i..])
        invariant patches == old(patches) + AsPatches(done)
      {
        Add(ADD, path, Some([MINUS]), Some(to[i]));
        done := Extend(done, [Edit(ADD, Under(path, [MINUS]), Some(to[i]))],
                       ItemEdits(path, start + i + 1, [], to[i + 1..]), old(patches));
        assert to[i..][1..] == to[i + 1..];
        i := i + 1;
      }
      assert done + [] == done;
    }

    /** One more stretch of edits is done. */
    ghost method Extend(done: seq<Edit>, es: seq<Edit>, more: seq<Edit>, was: seq<Json>) returns (r: seq<Edit>)
      requires patches == was + AsPatches(done) + AsPatches(es)
      ensures r == done + es && patches == was + AsPatches(r) && done + (es + more) == r + more
    {
      AsPatchesConcat(done, es);
      Associative(was, AsPatches(done), AsPatches(es));
      Associative(done, es, more);
      r := done + es;
    }

    method CompareFieldsToPatch(path: CString, from: seq<Member>, to: seq<Member>)
      modifies this
      ensures patches == old(patches) + AsPatches(FieldEdits(path, from, to))
      decreases MembersDepth(from), 1, 0
    {
      var a, b := 0, 0;
      ghost var done: seq<Edit> := [];
      assert from[0..] == from && to[0..] == to && done + FieldEdits(path, from, to) == FieldEdits(path, from, to);
      while a < |from| || b < |to|
        invariant a <= |from| && b <= |to|
        invariant FieldEdits(path, from, to) == done + FieldEdits(path, from[a..], to[b..])
        invariant patches == old(patches) + AsPatches(done)
        decreases |from| - a + |to| - b
      {
        assert a < |from| ==> from[a..][1..] == from[a + 1..];
        assert b < |to| ==> to[b..][1..] == to[b + 1..];
        var diff := 1;
        if a < |from| {
          diff := -1;
          if b < |to| {
            diff := StrCaseCmp(from[a].name, to[b].name);
          }
        }
        if diff == 0 {
          ghost var es := Edits(Under(path, from[a].name), from[a].value, to[b].value);
          FieldDepths(from, a);
          CompareToPatch(path + [SLASH] + Encode(from[a].name), from[a].value, to[b].value);
          done := Extend(done, es, FieldEdits(path, from[a + 1..], to[b + 1..]), old(patches));
          a, b := a + 1, b + 1;
        } else if diff < 0 {
          ghost var es := [Edit(REMOVE, Under(path, from[a].name), None)];
          Add(REMOVE, path, Some(from[a].name), None);
          done := Extend(done, es, FieldEdits(path, from[a + 1..], to[b..]), old(patches));
          a := a + 1;
        } else {
          ghost var es := [Edit(ADD, Under(path, to[b].name), Some(to[b].value))];
          Add(ADD, path, Some(to[b].name), Some(to[b].value));
          done := Extend(done, es, FieldEdits(path, from[a..], to[b + 1..]), old(patches));
          b := b + 1;
        }
      }
      assert done + [] == done;
    }
  }

  method GenerateAll(from: Json, to: Json) returns (patches: Json)
    ensures patches == GeneratePatches(from, to)
  {
    var list := new PatchList();
    list.CompareToPatch([], from, to);
    return Array(list.patches);
  }

  /** A document that patches change in place. It is `root` as long as its child lists are not broken. */
  class Document {
    var root: Json
    /** How the child lists stand. */
    ghost var links: Links

    constructor (root: Json)
      ensures this.root == root && links == Intact
    {
      this.root := root;
      links := Intact;
    }

    /** `cJSONUtils_PatchDetach`; None when the path has no usable last token. */
    method Detach(path: CString) returns (crash: bool, item: Option<Json>)
      modifies this
      ensures match PatchDetach(old(root), path)
              case Crash => crash && root == old(root)
              case Detached(i, d) => !crash && item == i && root == d
      ensures links == AfterTaking(old(links), old(root), path)
    {
      crash, item := false, None;
      links := AfterTaking(links, root, path);
      var split := SplitPath(path);
      if split.None? {
        crash := true;
        return;
      }
      var parent := FollowPointer(root, split.value.0);
      if parent.None? {
        return;
      }
      match Subtree(root, parent.value)
      case Array(xs) =>
        var i := Steps(Atoi(split.value.1));
        if i < |xs| {
          item := Some(xs[i]);
          root := SetSubtree(root, parent.value, Array(Remove(xs, i)));
        }
      case Object(ms) =>
        var i := FindName(ms, split.value.1);
        if i < |ms| {
          item := Some(ms[i].value);
          root := SetSubtree(root, parent.value, Object(Remove(ms, i)));
        }
      case _ =>
    }

    /** Adds a value at a path, the last step of every patch that has one. */
    method AddValue(path: CString, v: Json) returns (crash: bool, code: int)
      modifies this
      ensures match DoAdd(old(root), path, v)
              case Undefined => crash && root == old(root)
              case Applied(d, c) => !crash && code == c && root == d
      ensures links == AfterTaking(old(links), old(root), path)
    {
      crash, code := false, 0;
      links := AfterTaking(links, root, path);
      var split := SplitPath(path);
      if split.None? {
        crash := true;
        return;
      }
      var parent := FollowPointer(root, split.value.0);
      if parent.None? {
        code := 9;
        return;
      }
      root := SetSubtree(root, parent.value, AddChild(Subtree(root, parent.value), split.value.1, v));
    }

    /** `cJSONUtils_ApplyPatch`. */
    method Apply(patch: Json) returns (crash: bool, code: int)
      modifies this
      ensures match ApplyPatch(old(root), patch)
              case Undefined => crash
              case Applied(d, c) => !crash && code == c && root == d
      ensures crash <==> !Sound(old(root), patch)
      ensures !crash ==> Obeys(old(root), patch, root, code)
      ensures links == AfterPatch(old(links), old(root), patch)
    {
      hide Sound, Obeys;
      ApplyObeys(root, patch);
      crash, code := false, 0;
      var op, path := GetItem(patch, OP), GetItem(patch, PATH);
      if op.None? || path.None? {
        code := 2;
        return;
      }
      if !op.value.String? {
        crash := true;
        return;
      }
      var kind := op.value.s;
      if kind !in {ADD, REMOVE, REPLACE, MOVE, COPY, TEST} {
        code := 3;
        return;
      }
      if !path.value.String? {
        crash := true;
        return;
      }
      var at := path.value.s;
      if kind == TEST {
        crash, code := Test(at, GetItem(patch, VALUE));
        return;
      }
      if kind == REMOVE || kind == REPLACE {
        var dropped;
        crash, dropped := Detach(at);
        if crash || kind == REMOVE {
          return;
        }
      }
      var value := GetItem(patch, VALUE);
      if kind == MOVE || kind == COPY {
        var from := GetItem(patch, FROM);
        if from.None? {
          code := 4;
          return;
        }
        if !from.value.String? {
          crash := true;
          return;
        }
        if kind == MOVE {
          crash, value := Detach(from.value.s);
          if crash {
            return;
          }
        } else {
          var source := FollowPointer(root, from.value.s);
          value := if source.Some? then Some(Subtree(root, source.value)) else None;
        }
        if value.None? {
          code := 5;
          return;
        }
      }
      if value.None? {
        code := 7;
        return;
      }
      crash, code := AddValue(at, value.value);
    }

    method Test(path: CString, v: Option<Json>) returns (crash: bool, code: int)
      modifies this
      ensures match DoTest(old(root), path, v)
              case Undefined => crash
              case Applied(d, c) => !crash && code == c && root == d
      ensures v.Some? && !crash ==> Answers(old(root), path, v.value, root, code)
      ensures links == if v.Some? then AfterTest(old(links), old(root), path) else old(links)
    {
      hide Answers, Nowhere;
      crash, code := false, 0;
      if v.Some? {
        links := AfterTest(links, root, path);
        TestMeans(root, path, v.value);
      }
      var p := FollowPointer(root, path);
      if p.None? || v.None? {
        crash := true;
        return;
      }
      var a, b;
      code, a, b := CompareTrees(Subtree(root, p.value), v.value);
      root := SetSubtree(root, p.value, a);
    }

    /** `cJSONUtils_ApplyPatches`. */
    method ApplyAll(patches: Json) returns (crash: bool, code: int)
      modifies this
      ensures match ApplyPatches(old(root), patches)
              case Undefined => crash
              case Applied(d, c) => !crash && code == c && root == d
      ensures links == if patches.Array? then AfterPatches(old(links), old(root), patches.items) else old(links)
    {
      crash, code := false, 0;
      if !patches.Array? {
        code := 1;
        return;
      }
      var ps, i := patches.items, 0;
      assert ps[0..] == ps;
      while i < |ps|
        invariant i <= |ps| && !crash && code == 0
        invariant ApplyEach(old(root), ps) == ApplyEach(root, ps[i..])
        invariant AfterPatches(old(links), old(root), ps) == AfterPatches(links, root, ps[i..])
      {
        assert ps[i..][1..] == ps[i + 1..];
        crash, code := Apply(ps[i]);
        if crash || code != 0 {
          return;
        }
        i := i + 1;
      }
    }
  }
}
