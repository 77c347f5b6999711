/** How single edits act: on the members and items of a container, and through a container on its children. */
module PatchEdits {
  import opened Bytes
  import opened Members
  import opened Numerals
  import opened Options
  import opened Patching
  import opened Pointers
  import opened Sorting
  import opened Trees

  // ----- an edit is what its patch document does

  function DoEdit(doc: Json, e: Edit): Applied {
    if e.kind == REMOVE then DoRemove(doc, e.path)
    else if e.kind == REPLACE then DoReplace(doc, e.path, e.value)
    else if e.value.None? then Applied(doc, 7)
    else DoAdd(doc, e.path, e.value.value)
  }

  predicate Known(e: Edit) {
    e.kind in {ADD, REMOVE, REPLACE}
  }

  predicate AllKnown(es: seq<Edit>) {
    es == [] || (Known(es[0]) && AllKnown(es[1..]))
  }

  function DoEdits(doc: Json, es: seq<Edit>): Applied
    decreases |es|
  {
    if es == [] then Applied(doc, 0)
    else match DoEdit(doc, es[0])
      case Undefined => Undefined
      case Applied(doc', code) => if code != 0 then Applied(doc', code) else DoEdits(doc', es[1..])
  }

  lemma LowerNames()
    ensures LowerAll(OP) == OP && LowerAll(PATH) == PATH && LowerAll(VALUE) == VALUE && LowerAll(FROM) == FROM
  {}

  lemma ReadPatch(e: Edit)
    ensures var p := AsPatch(e);
      GetItem(p, OP) == Some(String(e.kind)) && GetItem(p, PATH) == Some(String(e.path)) && GetItem(p, VALUE) == e.value
  {
    LowerNames();
    var ms := AsPatch(e).members;
    assert Folded(ms[0]) == OP && Folded(ms[1]) == PATH && (e.value.Some? ==> Folded(ms[2]) == VALUE);
    assert OP[0] != PATH[0] && OP[0] != VALUE[0] && PATH[0] != VALUE[0];
    assert FindName(ms, OP) == 0 && FindName(ms, PATH) == 1 && FindName(ms, VALUE) == 2;
  }

  lemma {:induction false} ApplyAsEdits(doc: Json, es: seq<Edit>)
    requires AllKnown(es)
    ensures ApplyEach(doc, AsPatches(es)) == DoEdits(doc, es)
    decreases |es|
  {
    if es != [] {
      ApplyAsEdit(doc, es[0]);
      assert AsPatches(es)[1..] == AsPatches(es[1..]);
      var r := DoEdit(doc, es[0]);
      if r.Applied? {
        ApplyAsEdits(r.doc, es[1..]);
      }
    }
  }

  lemma ApplyAsEdit(doc: Json, e: Edit)
    requires Known(e)
    ensures ApplyPatch(doc, AsPatch(e)) == DoEdit(doc, e)
  {
    hide AsPatch, DoRemove, DoReplace, DoAdd, DoTest, DoMove, DoCopy, GetItem;
    ReadPatch(e);
    KindsDiffer();
  }

  lemma KindsDiffer()
    ensures TEST !in {ADD, REMOVE, REPLACE} && MOVE !in {ADD, REMOVE, REPLACE} && COPY !in {ADD, REMOVE, REPLACE}
    ensures ADD != REMOVE && ADD != REPLACE && REMOVE != REPLACE
  {
    assert TEST[0] != ADD[0] && TEST[0] != REMOVE[0] && MOVE[0] != ADD[0] && MOVE[0] != REMOVE[0];
    assert COPY[0] != ADD[0] && COPY[0] != REMOVE[0] && ADD[0] != REMOVE[0] && REMOVE[2] != REPLACE[2];
  }

  lemma {:induction false} DoEditsConcat(doc: Json, a: seq<Edit>, b: seq<Edit>)
    ensures DoEdits(doc, a + b) ==
      match DoEdits(doc, a)
      case Undefined => Undefined
      case Applied(doc', code) => if code != 0 then Applied(doc', code) else DoEdits(doc', b)
    decreases |a|
  {
    if a == [] {
      assert a + b == b;
    } else {
      assert (a + b)[1..] == a[1..] + b;
      var r := DoEdit(doc, a[0]);
      if r.Applied? {
        DoEditsConcat(r.doc, a[1..], b);
      }
    }
  }

  // ----- paths

  /** The token that leads to a name. */
  function Step(name: CString): CString {
    [SLASH] + Encode(name)
  }

  lemma {:induction false} EncodeDigits(s: CString)
    requires forall c | c in s :: IsDigit(c)
    ensures Encode(s) == s
  {
    if s != [] {
      assert s == [s[0]] + s[1..];
      assert s[0] in s;
      EncodeDigits(s[1..]);
    }
  }

  lemma EncodeIndex(n: nat)
    ensures Encode(Digits(n)) == Digits(n)
  {
    forall c | c in Digits(n) ensures IsDigit(c) {
      if !IsDigit(c) {
        DigitsOnly(n, c);
      }
    }
    EncodeDigits(Digits(n));
  }

  lemma SplitStep(name: CString)
    ensures SplitPath(Step(name)) == Some(([], name))
  {
    EncodeNoSlash(name);
    assert Step(name)[1..] == Encode(name) && Step(name)[0] == SLASH;
    forall m | 0 < m < |Step(name)| ensures Step(name)[m] != SLASH {
      assert Step(name)[m] in Encode(name);
    }
    DecodeEncode(name);
    assert Step(name)[..0] == [];
  }

  /** Splitting a longer path splits its tail. */
  lemma SplitUnder(front: CString, path: CString)
    requires path != [] && path[0] == SLASH
    ensures match SplitPath(path)
            case None => SplitPath(front + path) == None
            case Some((up, name)) => AtToken(up) && SplitPath(front + path) == Some((front + up, name))
  {
    var k := LastSlash(path);
    assert (front + path)[|front| + k + 1..] == path[k + 1..];
    assert LastSlash(front + path) == |front| + k by {
      assert (front + path)[|front| + k] == SLASH;
      forall m | |front| + k < m < |front + path| ensures (front + path)[m] != SLASH {
        assert (front + path)[m] == path[m - |front|];
      }
    }
    assert (front + path)[..|front| + k] == front + path[..k];
  }

  // ----- edits below a child

  /** `name` leads to child `i`: it is that index, or that member's name in some case. */
  ghost predicate Leads(doc: Json, name: CString, i: nat) {
    && i < Children(doc)
    && match doc
       case Array(_) => name == Digits(i)
       case Object(ms) => Distinct(ms, Folded) && Folded(ms[i]) == LowerAll(name)
  }

  lemma Follow(doc: Json, name: CString, i: nat, p: CString)
    requires Leads(doc, name, i) && AtToken(p)
    ensures GetPointer(doc, Step(name) + p) == Below(i, GetPointer(Child(doc, i), p))
  {
    match doc
    case Array(xs) =>
      EncodeIndex(i);
      FollowIndex(xs, i, p);
    case Object(ms) =>
      FollowName(ms, i, name, p);
  }

  lemma SetChildKeeps(doc: Json, name: CString, i: nat, v: Json)
    requires Leads(doc, name, i)
    ensures Leads(SetChild(doc, i, v), name, i) && Child(SetChild(doc, i, v), i) == v
    ensures forall w :: SetChild(SetChild(doc, i, v), i, w) == SetChild(doc, i, w)
  {
    if doc.Object? {
      var ms, ms' := doc.members, SetChild(doc, i, v).members;
      forall a, b | 0 <= a < b < |ms'| ensures Folded(ms'[a]) != Folded(ms'[b]) {
        assert Folded(ms'[a]) == Folded(ms[a]) && Folded(ms'[b]) == Folded(ms[b]);
      }
    }
  }

  function Lift(doc: Json, i: nat, r: Applied): Applied
    requires i < Children(doc)
  {
    match r
    case Undefined => Undefined
    case Applied(c, code) => Applied(SetChild(doc, i, c), code)
  }

  lemma LiftSubtree(doc: Json, i: nat, p: Position, v: Json)
    requires i < Children(doc) && ValidPosition(Child(doc, i), p)
    ensures Subtree(doc, [i] + p) == Subtree(Child(doc, i), p)
    ensures SetSubtree(doc, [i] + p, v) == SetChild(doc, i, SetSubtree(Child(doc, i), p, v))
  {
    assert ([i] + p)[1..] == p;
  }

  lemma SetSame(doc: Json, i: nat)
    requires i < Children(doc)
    ensures SetChild(doc, i, Child(doc, i)) == doc
  {
    match doc
    case Array(xs) => assert xs[i := xs[i]] == xs;
    case Object(ms) => assert ms[i := ms[i].(value := ms[i].value)] == ms;
  }

  lemma LiftAdd(doc: Json, name: CString, i: nat, path: CString, v: Json)
    requires Leads(doc, name, i) && path != [] && path[0] == SLASH
    ensures DoAdd(doc, Step(name) + path, v) == Lift(doc, i, DoAdd(Child(doc, i), path, v))
  {
    var c := Child(doc, i);
    SplitUnder(Step(name), path);
    if SplitPath(path).Some? {
      var (up, last) := SplitPath(path).value;
      Follow(doc, name, i, up);
      match GetPointer(c, up)
      case None => SetSame(doc, i);
      case Some(p) => LiftSubtree(doc, i, p, AddChild(Subtree(c, p), last, v));
    }
  }

  /** `PatchDetach` once the parent is found. */
  function RemoveBelow(doc: Json, p: Position, name: CString): Json
    requires ValidPosition(doc, p)
  {
    match Subtree(doc, p)
    case Array(xs) => if Steps(Atoi(name)) < |xs| then SetSubtree(doc, p, Array(Remove(xs, Steps(Atoi(name))))) else doc
    case Object(ms) => if FindName(ms, name) < |ms| then SetSubtree(doc, p, Object(Without(ms, name))) else doc
    case _ => doc
  }

  lemma DoRemoveIs(doc: Json, path: CString)
    ensures SplitPath(path).None? ==> DoRemove(doc, path) == Undefined
    ensures SplitPath(path).Some? ==>
      var (up, name) := SplitPath(path).value;
      var p := GetPointer(doc, up);
      DoRemove(doc, path) == Applied(if p.None? then doc else RemoveBelow(doc, p.value, name), 0)
  {}

  lemma LiftRemoveBelow(doc: Json, i: nat, p: Position, name: CString)
    requires i < Children(doc) && ValidPosition(Child(doc, i), p)
    ensures RemoveBelow(doc, [i] + p, name) == SetChild(doc, i, RemoveBelow(Child(doc, i), p, name))
  {
    SetSame(doc, i);
    var parent := Subtree(Child(doc, i), p);
    match parent
    case Array(xs) => LiftSubtree(doc, i, p, Array(Remove(xs, Steps(Atoi(name)))));
    case Object(ms) => LiftSubtree(doc, i, p, Object(Without(ms, name)));
    case _ => LiftSubtree(doc, i, p, parent);
  }

  lemma LiftRemove(doc: Json, name: CString, i: nat, path: CString)
    requires Leads(doc, name, i) && path != [] && path[0] == SLASH
    ensures DoRemove(doc, Step(name) + path) == Lift(doc, i, DoRemove(Child(doc, i), path))
  {
    hide DoRemove, RemoveBelow, SplitPath;
    var c := Child(doc, i);
    DoRemoveIs(doc, Step(name) + path);
    DoRemoveIs(c, path);
    SplitUnder(Step(name), path);
    SetSame(doc, i);
    if SplitPath(path).Some? {
      var (up, last) := SplitPath(path).value;
      Follow(doc, name, i, up);
      var p := GetPointer(c, up);
      if p.Some? {
        LiftRemoveBelow(doc, i, p.value, last);
      }
    }
  }

  /** An edit whose path goes on below a child acts on that child alone. */
  lemma LiftEdit(doc: Json, name: CString, i: nat, e: Edit)
    requires Leads(doc, name, i) && e.path != [] && e.path[0] == SLASH
    ensures DoEdit(doc, e.(path := Step(name) + e.path)) == Lift(doc, i, DoEdit(Child(doc, i), e))
  {
    var c := Child(doc, i);
    LiftRemove(doc, name, i, e.path);
    SetSame(doc, i);
    if e.kind == REMOVE {
    } else if e.kind == REPLACE {
      var r := DoRemove(c, e.path);
      if r.Applied? && e.value.Some? {
        SetChildKeeps(doc, name, i, r.doc);
        LiftAdd(SetChild(doc, i, r.doc), name, i, e.path, e.value.value);
      }
    } else if e.value.Some? {
      LiftAdd(doc, name, i, e.path, e.value.value);
    }
  }

  function Prefixed(front: CString, es: seq<Edit>): seq<Edit> {
    if es == [] then [] else [es[0].(path := front + es[0].path)] + Prefixed(front, es[1..])
  }

  predicate AllDeep(es: seq<Edit>) {
    es == [] || (es[0].path != [] && es[0].path[0] == SLASH && AllDeep(es[1..]))
  }

  lemma {:induction false} LiftEdits(doc: Json, name: CString, i: nat, es: seq<Edit>)
    requires Leads(doc, name, i) && AllDeep(es)
    ensures DoEdits(doc, Prefixed(Step(name), es)) == Lift(doc, i, DoEdits(Child(doc, i), es))
    decreases |es|
  {
    SetSame(doc, i);
    if es != [] {
      LiftEdit(doc, name, i, es[0]);
      var r := DoEdit(Child(doc, i), es[0]);
      assert Prefixed(Step(name), es)[1..] == Prefixed(Step(name), es[1..]);
      if r.Applied? && r.code == 0 {
        SetChildKeeps(doc, name, i, r.doc);
        LiftEdits(SetChild(doc, i, r.doc), name, i, es[1..]);
      }
    }
  }

  // ----- edits of a container itself

  lemma RemoveItem(xs: seq<Json>, c: nat)
    ensures DoRemove(Array(xs), Step(Digits(c))) == Applied(Array(Remove(xs, c)), 0)
  {
    SplitStep(Digits(c));
    AtoiDigits(c);
  }

  lemma AppendItem(xs: seq<Json>, v: Json)
    ensures DoAdd(Array(xs), Step([MINUS]), v) == Applied(Array(xs + [v]), 0)
  {
    SplitStep([MINUS]);
  }

  lemma ReplaceItem(xs: seq<Json>, c: nat, v: Json)
    requires c < |xs|
    ensures DoReplace(Array(xs), Step(Digits(c)), Some(v)) == Applied(Array(xs[c := v]), 0)
  {
    RemoveItem(xs, c);
    SplitStep(Digits(c));
    AtoiDigits(c);
    ReadDigitsBack(c, []);
    assert Digits(c) != [MINUS];
    assert Insert(Remove(xs, c), c, v) == xs[c := v];
  }

  lemma RemoveField(ms: seq<Member>, name: CString)
    ensures DoRemove(Object(ms), Step(name)) == Applied(Object(Without(ms, name)), 0)
  {
    SplitStep(name);
  }

  lemma AddField(ms: seq<Member>, name: CString, v: Json)
    ensures DoAdd(Object(ms), Step(name), v) == Applied(Object(Without(ms, name) + [Member(name, v)]), 0)
  {
    SplitStep(name);
  }

  lemma ReplaceField(ms: seq<Member>, name: CString, v: Json)
    requires Distinct(ms, Folded)
    ensures DoReplace(Object(ms), Step(name), Some(v)) == Applied(Object(Without(ms, name) + [Member(name, v)]), 0)
  {
    RemoveField(ms, name);
    AddField(Without(ms, name), name, v);
    var i := FindName(ms, name);
    var rest := Without(ms, name);
    if i < |ms| {
      forall j | 0 <= j < |rest| ensures Folded(rest[j]) != LowerAll(name) {
        assert rest[j] == ms[if j < i then j else j + 1];
      }
    }
    assert FindName(rest, name) == |rest|;
  }
}
