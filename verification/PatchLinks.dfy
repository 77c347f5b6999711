/**
 * How the child lists of a document stand while patches run. A "test" sorts the objects it compares; sorting leaves
 * the `prev` of a new first child as it was, and detaching such a first child ties its list into a loop.
 */
module PatchLinks {
  import opened Bytes
  import opened Comparing
  import opened Members
  import opened Numerals
  import opened Options
  import opened Patching
  import opened Pointers
  import opened Sorting
  import opened Trees

  /**
   * `Stale` once a "test" has met members out of order, `Broken` once a first member has been detached after that.
   * Up to then the document is the tree that `Patching.ApplyPatches` computes.
   */
  datatype Links = Intact | Stale | Broken

  /** Some object at or below `t` is not in ascending order, so that sorting it may relink it. */
  ghost predicate Unsorted(t: Json) {
    match t
    case Array(xs) => exists x | x in xs :: Unsorted(x)
    case Object(ms) => !Ascending(ms, Folded) || exists m | m in ms :: Unsorted(m.value)
    case _ => false
  }

  /** Detaching or putting what `path` names takes the first member out of an object. */
  predicate TakesFirst(doc: Json, path: CString) {
    match SplitPath(path)
    case None => false
    case Some((up, name)) =>
      match GetPointer(doc, up)
      case None => false
      case Some(p) =>
        match Subtree(doc, p)
        case Object(ms) => ms != [] && FindName(ms, name) == 0
        case _ => false
  }

  function AfterTaking(links: Links, doc: Json, path: CString): Links {
    if links.Stale? && TakesFirst(doc, path) then Broken else links
  }

  ghost function AfterTest(links: Links, doc: Json, path: CString): Links {
    match GetPointer(doc, path)
    case None => links
    case Some(p) => if links.Intact? && Unsorted(Subtree(doc, p)) then Stale else links
  }

  /** Detaching what `from` names, then putting a value, if there is one, where `path` leads. */
  function AfterDetach(links: Links, doc: Json, from: CString, path: CString, put: bool): Links {
    var l := AfterTaking(links, doc, from);
    match PatchDetach(doc, from)
    case Crash => l
    case Detached(_, doc') => if put then AfterTaking(l, doc', path) else l
  }

  /** What one patch does to the lists of the document. */
  ghost function AfterPatch(links: Links, doc: Json, patch: Json): Links {
    var op, path, v, from := GetItem(patch, OP), GetItem(patch, PATH), GetItem(patch, VALUE), GetItem(patch, FROM);
    if op.None? || path.None? || !op.value.String? || !path.value.String? then links
    else
      var kind, at := op.value.s, path.value.s;
      if kind == TEST then if v.Some? then AfterTest(links, doc, at) else links
      else if kind == REMOVE then AfterDetach(links, doc, at, at, false)
      else if kind == REPLACE then AfterDetach(links, doc, at, at, v.Some?)
      else if kind == MOVE then
        if from.None? || !from.value.String? then links
        else
          var d := PatchDetach(doc, from.value.s);
          AfterDetach(links, doc, from.value.s, at, d.Detached? && d.item.Some?)
      else if kind == COPY then
        if from.None? || !from.value.String? || GetPointer(doc, from.value.s).None? then links
        else AfterTaking(links, doc, at)
      else if kind == ADD && v.Some? then AfterTaking(links, doc, at)
      else links
  }

  ghost function AfterPatches(links: Links, doc: Json, patches: seq<Json>): Links
    decreases |patches|
  {
    if patches == [] then links
    else
      var l := AfterPatch(links, doc, patches[0]);
      match ApplyPatch(doc, patches[0])
      case Undefined => l
      case Applied(doc', code) => if code != 0 then l else AfterPatches(l, doc', patches[1..])
  }

  // ----- a "test" leaves sorted objects alone

  lemma {:induction false} SortedStays(t: Json, v: Json)
    requires !Unsorted(t)
    ensures Compare(t, v).a == t
    decreases Depth(t), 0
  {
    if SameType(t, v) {
      match t
      case Array(xs) =>
        SortedItemsStay(xs, v.items);
      case Object(ms) =>
        SortedMembersStay(ms, SortMembers(v.members));
      case _ =>
    }
  }

  lemma {:induction false} SortedItemsStay(xs: seq<Json>, ys: seq<Json>)
    requires forall x | x in xs :: !Unsorted(x)
    ensures CompareItems(xs, ys).a == xs
    decreases ItemsDepth(xs), |xs|
  {
    if xs != [] && ys != [] {
      assert xs[0] in xs && forall x | x in xs[1..] :: x in xs;
      SortedStays(xs[0], ys[0]);
      SortedItemsStay(xs[1..], ys[1..]);
      assert [xs[0]] + xs[1..] == xs;
    }
  }

  lemma {:induction false} SortedMembersStay(xs: seq<Member>, ys: seq<Member>)
    requires forall x | x in xs :: !Unsorted(x.value)
    ensures CompareFields(xs, ys).a == xs
    decreases MembersDepth(xs), |xs|
  {
    if xs != [] && ys != [] && CaseCmp(xs[0].name, ys[0].name) == 0 {
      assert xs[0] in xs && forall x | x in xs[1..] :: x in xs;
      SortedStays(xs[0].value, ys[0].value);
      SortedMembersStay(xs[1..], ys[1..]);
      assert [xs[0]] + xs[1..] == xs;
    }
  }

  // ----- a "test" that succeeds leaves objects in order

  lemma {:induction false} LeavesSorted(t: Json, v: Json)
    requires WellNamed(t) && WellNamed(v) && Compare(t, v).code == 0
    ensures !Unsorted(Compare(t, v).a)
    decreases Depth(t), 0
  {
    match t
    case Array(xs) => LeavesItemsSorted(xs, v.items);
    case Object(ms) =>
      SortFacts(ms);
      SortFacts(v.members);
      var xs, ys := SortMembers(ms), SortMembers(v.members);
      LeavesMembersSorted(xs, ys);
      CompareFieldsReorders(xs, ys);
      NamesAscend(xs, CompareFields(xs, ys).a);
    case _ =>
  }

  lemma {:induction false} LeavesItemsSorted(xs: seq<Json>, ys: seq<Json>)
    requires ItemsWellNamed(xs) && ItemsWellNamed(ys) && CompareItems(xs, ys).code == 0
    ensures forall x | x in CompareItems(xs, ys).a :: !Unsorted(x)
    decreases ItemsDepth(xs), |xs|
  {
    hide Compare, Unsorted;
    if xs != [] && ys != [] {
      LeavesSorted(xs[0], ys[0]);
      LeavesItemsSorted(xs[1..], ys[1..]);
    }
  }

  lemma {:induction false} LeavesMembersSorted(xs: seq<Member>, ys: seq<Member>)
    requires AllWellNamed(xs) && AllWellNamed(ys) && CompareFields(xs, ys).code == 0
    ensures forall m | m in CompareFields(xs, ys).a :: !Unsorted(m.value)
    decreases MembersDepth(xs), |xs|
  {
    hide Compare, Unsorted, WellNamed, CaseCmp;
    if xs != [] && ys != [] {
      assert xs[0] in xs && ys[0] in ys;
      LeavesSorted(xs[0].value, ys[0].value);
      TailNamed(xs);
      TailNamed(ys);
      LeavesMembersSorted(xs[1..], ys[1..]);
    }
  }

  lemma TailNamed(ms: seq<Member>)
    requires ms != [] && AllWellNamed(ms)
    ensures AllWellNamed(ms[1..])
  {
    hide WellNamed;
  }

  lemma NamesAscend(xs: seq<Member>, ys: seq<Member>)
    requires StrictlySorted(xs, Folded) && SameNames(ys, xs)
    ensures Ascending(ys, Folded)
  {
    forall i | 0 <= i < |ys| - 1 ensures KeyLess(ys[i], ys[i + 1], Folded) {
      assert KeyLess(xs[i], xs[i + 1], Folded);
    }
  }

  // ----- lists without "test"

  ghost predicate Tests(patch: Json) {
    GetItem(patch, OP) == Some(String(TEST))
  }

  /** Without a "test" the lists stay as they should be. */
  lemma {:induction false} NoTestIntact(doc: Json, patches: seq<Json>)
    requires forall p | p in patches :: !Tests(p)
    ensures AfterPatches(Intact, doc, patches) == Intact
    decreases |patches|
  {
    hide ApplyPatch, PatchDetach, GetItem;
    if patches != [] {
      assert patches[0] in patches && forall p | p in patches[1..] :: p in patches;
      match ApplyPatch(doc, patches[0])
      case Undefined =>
      case Applied(doc', _) => NoTestIntact(doc', patches[1..]);
    }
  }

  predicate Edited(es: seq<Edit>) {
    forall e | e in es :: e.kind in {ADD, REMOVE, REPLACE}
  }

  lemma {:induction false} EditsEdited(path: CString, from: Json, to: Json)
    ensures Edited(Edits(path, from, to))
    decreases Depth(from), 0
  {
    if SameType(from, to) {
      match from
      case Array(xs) => ItemEditsEdited(path, 0, xs, to.items);
      case Object(ms) =>
        SortFacts(ms);
        FieldEditsEdited(path, SortMembers(ms), SortMembers(to.members));
      case _ =>
    }
  }

  lemma {:induction false} ItemEditsEdited(path: CString, c: nat, from: seq<Json>, to: seq<Json>)
    ensures Edited(ItemEdits(path, c, from, to))
    decreases ItemsDepth(from), |from| + |to|
  {
    if from != [] && to != [] {
      EditsEdited(path + [SLASH] + Digits(c), from[0], to[0]);
      ItemEditsEdited(path, c + 1, from[1..], to[1..]);
    } else if from != [] {
      ItemEditsEdited(path, c + 1, from[1..], to);
    } else if to != [] {
      ItemEditsEdited(path, c + 1, from, to[1..]);
    }
  }

  lemma {:induction false} FieldEditsEdited(path: CString, from: seq<Member>, to: seq<Member>)
    ensures Edited(FieldEdits(path, from, to))
    decreases MembersDepth(from), |from| + |to|
  {
    if from == [] && to == [] {
    } else {
      var diff := if from == [] then 1 else if to == [] then -1 else CaseCmp(from[0].name, to[0].name);
      if diff == 0 {
        EditsEdited(Under(path, from[0].name), from[0].value, to[0].value);
        FieldEditsEdited(path, from[1..], to[1..]);
      } else if diff < 0 {
        FieldEditsEdited(path, from[1..], to);
      } else {
        FieldEditsEdited(path, from, to[1..]);
      }
    }
  }

  lemma {:induction false} PatchesTestNothing(es: seq<Edit>)
    requires Edited(es)
    ensures forall p | p in AsPatches(es) :: !Tests(p)
  {
    if es != [] {
      var ms := AsPatch(es[0]).members;
      assert es[0] in es && ms[0] == Member(OP, String(es[0].kind)) && FindName(ms, OP) == 0;
      assert Edited(es[1..]);
      PatchesTestNothing(es[1..]);
    }
  }

  /** Generated patches never break the lists of the document that they are applied to. */
  lemma GeneratedIntact(doc: Json, from: Json, to: Json)
    ensures AfterPatches(Intact, doc, GeneratePatches(from, to).items) == Intact
  {
    EditsEdited([], from, to);
    PatchesTestNothing(Edits([], from, to));
    NoTestIntact(doc, AsPatches(Edits([], from, to)));
  }

  // ----- a run that breaks a list

  const A_MEMBER := Member([97], Null)
  const B_MEMBER := Member([98], Null)
  const ROOT_TEST :=
    Object([Member(OP, String(TEST)), Member(PATH, String([])), Member(VALUE, Object([B_MEMBER, A_MEMBER]))])
  const A_REMOVAL := Object([Member(OP, String(REMOVE)), Member(PATH, String([SLASH, 97]))])

  lemma ExampleItems()
    ensures GetItem(ROOT_TEST, OP) == Some(String(TEST)) && GetItem(ROOT_TEST, PATH) == Some(String([]))
    ensures GetItem(ROOT_TEST, VALUE) == Some(Object([B_MEMBER, A_MEMBER]))
    ensures GetItem(A_REMOVAL, OP) == Some(String(REMOVE)) && GetItem(A_REMOVAL, PATH) == Some(String([SLASH, 97]))
  {
    ExampleLookups(ROOT_TEST.members);
    ExampleLookups(A_REMOVAL.members);
  }

  lemma ExampleLookups(ms: seq<Member>)
    requires 2 <= |ms| <= 3 && ms[0].name == OP && ms[1].name == PATH && (|ms| == 3 ==> ms[2].name == VALUE)
    ensures FindName(ms, OP) == 0 && FindName(ms, PATH) == 1 && (|ms| == 3 ==> FindName(ms, VALUE) == 2)
  {
    assert LowerAll(OP) == OP && LowerAll(PATH) == PATH && LowerAll(VALUE) == VALUE;
    assert |OP| == 2 && |PATH| == 4 && |VALUE| == 5;
    assert ms[1..][0] == ms[1] && (|ms| == 3 ==> ms[1..][1..][0] == ms[2]);
  }

  lemma ExampleSorts()
    ensures SortMembers([B_MEMBER, A_MEMBER]) == [A_MEMBER, B_MEMBER] && Unsorted(Object([B_MEMBER, A_MEMBER]))
  {
    var s, a, b := [B_MEMBER, A_MEMBER], [A_MEMBER], [B_MEMBER];
    assert Folded(A_MEMBER) == [97] && Folded(B_MEMBER) == [98];
    assert !KeyLess(s[0], s[1], Folded);
    assert s[..1] == b && s[1..] == a && a[1..] == [];
    assert SortBy(b, Folded) == b && SortBy(a, Folded) == a;
    assert Merge(b, a, Folded) == [A_MEMBER] + Merge(b, [], Folded);
  }

  lemma ExampleTests()
    ensures var v := Object([B_MEMBER, A_MEMBER]);
      Compare(v, v) == Comparison(0, Object([A_MEMBER, B_MEMBER]), Object([A_MEMBER, B_MEMBER]))
  {
    ExampleSorts();
    var s := [A_MEMBER, B_MEMBER];
    assert s[1..] == [B_MEMBER] && s[1..][1..] == [];
    CmpZero(Folded(A_MEMBER), Folded(A_MEMBER));
    CmpZero(Folded(B_MEMBER), Folded(B_MEMBER));
    assert CompareFields([], []) == FieldsComparison(0, [], []);
    assert Compare(Null, Null) == Comparison(0, Null, Null);
    assert [B_MEMBER] + [] == [B_MEMBER] && [A_MEMBER] + [B_MEMBER] == s;
    assert CompareFields(s[1..], s[1..]) == FieldsComparison(0, [B_MEMBER], [B_MEMBER]);
    assert CompareFields(s, s) == FieldsComparison(0, s, s);
  }

  lemma ExampleTakes()
    ensures TakesFirst(Object([A_MEMBER, B_MEMBER]), [SLASH, 97])
  {
    var path: CString := [SLASH, 97];
    assert path[..1] == [SLASH] && path[..1][..0] == [];
    assert LastSlash(path[..1]) == 0 && LastSlash(path) == 0;
    assert path[1..] == [97] && path[..0] == [];
    assert [97][1..] == [] && DecodeName([97]) == Some([97] + []);
  }

  /** On `{"b": null, "a": null}` a "test" of the root and then the removal of "/a" break its list. */
  lemma TestThenRemoveBreaks()
    ensures AfterPatches(Intact, Object([B_MEMBER, A_MEMBER]), [ROOT_TEST, A_REMOVAL]) == Broken
  {
    hide Compare, GetItem, SortBy;
    var doc, sorted := Object([B_MEMBER, A_MEMBER]), Object([A_MEMBER, B_MEMBER]);
    var patches := [ROOT_TEST, A_REMOVAL];
    ExampleItems();
    ExampleSorts();
    ExampleTests();
    ExampleTakes();
    assert AfterPatch(Intact, doc, ROOT_TEST) == Stale;
    assert ApplyPatch(doc, ROOT_TEST) == Applied(sorted, 0);
    assert AfterPatch(Stale, sorted, A_REMOVAL) == Broken;
    assert patches[1..] == [A_REMOVAL] && [A_REMOVAL][1..] == [];
    assert AfterPatches(Stale, sorted, [A_REMOVAL]) == Broken;
  }
}
