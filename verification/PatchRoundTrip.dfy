/** Generating patches from one tree to another and applying them. */
module PatchRoundTrip {
  import opened Bytes
  import opened Comparing
  import opened Likeness
  import opened Members
  import opened Numerals
  import opened Options
  import opened PatchEdits
  import opened PatchProofs
  import opened PatchValues
  import opened Patching
  import opened Pointers
  import opened Sequences
  import opened Trees
  import opened Walking

  // ----- arrays

  /** The document's items from `c` on are still those to be patched. */
  ghost predicate ItemsPending(xs: seq<Json>, c: nat, from: seq<Json>) {
    && c <= |xs| && |xs| - c == |from| && ItemsWellNamed(xs) && ItemsWellNamed(from)
    && ItemsMeaning(xs[c..], Exact) == ItemsMeaning(from, Exact)
  }

  lemma FirstPending(xs: seq<Json>, c: nat, from: seq<Json>)
    requires ItemsPending(xs, c, from) && from != []
    ensures Reordered(xs[c], from[0]) && WellNamed(xs[c])
  {
    ItemsTail(xs[c..], from);
    ItemWellNamed(xs, c);
  }

  lemma ItemPatched(xs: seq<Json>, c: nat, v: Json, from: seq<Json>)
    requires ItemsPending(xs, c, from) && from != [] && WellNamed(v)
    ensures ItemsPending(xs[c := v], c + 1, from[1..])
    ensures xs[c := v][..c + 1] == xs[..c] + [v]
  {
    var done, rest := xs[..c], xs[c + 1..];
    ItemsTail(xs[c..], from);
    assert xs[c..][1..] == rest && xs[c := v][c + 1..] == rest;
    SplitAround(xs, c, v);
    ItemsWellNamedConcat(done, [xs[c]] + rest);
    ItemsWellNamedConcat([xs[c]], rest);
    ItemsWellNamedConcat(done, [v] + rest);
    ItemsWellNamedConcat([v], rest);
  }

  lemma SplitAround(xs: seq<Json>, c: nat, v: Json)
    requires c < |xs|
    ensures xs == xs[..c] + ([xs[c]] + xs[c + 1..]) && xs[c := v] == xs[..c] + ([v] + xs[c + 1..])
  {}

  ghost predicate PatchesItems(r: Applied, done: seq<Json>, from: seq<Json>, to: seq<Json>) {
    && r.Applied? && r.code == 0 && r.doc.Array? && WellNamed(r.doc)
    && ItemsMeaning(r.doc.items, IgnoreCase) == ItemsMeaning(done, IgnoreCase) + PatchedItems(from, to)
  }

  /** No items left to compare: what is too much is removed, what is missing is appended. */
  lemma TailApplies(xs: seq<Json>, c: nat, from: seq<Json>, to: seq<Json>)
    requires ItemsPending(xs, c, from) && ItemsWellNamed(to) && (from == [] || to == [])
    ensures PatchesItems(DoEdits(Array(xs), ItemEdits([], c, from, to)), xs[..c], from, to)
  {
    hide DoEdits, ItemEdits;
    var done, rest := xs[..c], xs[c..];
    assert xs == done + rest;
    ItemsWellNamedConcat(done, rest);
    if to == [] {
      RemovalsSkip(done, rest, from);
      SurvivorsReordered(rest, from);
      ItemsWellNamedConcat(done, Survivors(rest));
      ItemsMeaningConcat(done, Survivors(rest), IgnoreCase);
    } else {
      assert done == xs;
      AdditionsAppend(xs, c, to);
      ItemsWellNamedConcat(xs, to);
      ItemsMeaningConcat(xs, to, IgnoreCase);
    }
  }

  lemma {:induction false} ItemsApply(xs: seq<Json>, c: nat, from: seq<Json>, to: seq<Json>)
    requires ItemsPending(xs, c, from) && ItemsWellNamed(to)
    ensures PatchesItems(DoEdits(Array(xs), ItemEdits([], c, from, to)), xs[..c], from, to)
    decreases ItemsDepth(from), |from|
  {
    hide DoEdits;
    if from == [] || to == [] {
      TailApplies(xs, c, from, to);
    } else {
      var tok := Step(Digits(c));
      FirstPending(xs, c, from);
      if GoesInto(from[0], to[0]) {
        ContainerApplies(xs[c], from[0], to[0]);
      }
      ItemStepApplies(xs, c, from, to);
    }
  }

  lemma ItemStepApplies(xs: seq<Json>, c: nat, from: seq<Json>, to: seq<Json>)
    requires ItemsPending(xs, c, from) && ItemsWellNamed(to) && from != [] && to != []
    requires GoesInto(from[0], to[0]) ==> Patches(DoEdits(xs[c], Edits([], from[0], to[0])), from[0], to[0])
    ensures PatchesItems(DoEdits(Array(xs), ItemEdits([], c, from, to)), xs[..c], from, to)
    decreases ItemsDepth(from), |from|, 0
  {
    hide DoEdits, Edits;
    var tok := Step(Digits(c));
    EncodeIndex(c);
    assert [] + [SLASH] + Digits(c) == tok;
    FirstPending(xs, c, from);
    var v := ItemApplies(xs, c, from[0], to[0]);
    ItemPatched(xs, c, v, from);
    ItemsApply(xs[c := v], c + 1, from[1..], to[1..]);
    var more := ItemEdits([], c + 1, from[1..], to[1..]);
    DoEditsConcat(Array(xs), Edits(tok, from[0], to[0]), more);
    ItemsMeaningConcat(xs[..c], [v], IgnoreCase);
    assert ItemsMeaning([v], IgnoreCase) == [PatchedValue(from[0], to[0])];
    Associative(ItemsMeaning(xs[..c], IgnoreCase), [PatchedValue(from[0], to[0])], PatchedItems(from[1..], to[1..]));
  }

  lemma ContainerApplies(doc: Json, from: Json, to: Json)
    requires GoesInto(from, to) && Reordered(doc, from) && WellNamed(doc) && WellNamed(from) && WellNamed(to)
    ensures Patches(DoEdits(doc, Edits([], from, to)), from, to)
    decreases Depth(from), 0, 1
  {
    if from.Array? {
      ArrayApplies(doc, from, to);
    } else {
      ObjectApplies(doc, from, to);
    }
  }

  lemma ArrayApplies(doc: Json, from: Json, to: Json)
    requires from.Array? && to.Array? && Reordered(doc, from) && WellNamed(doc) && WellNamed(from) && WellNamed(to)
    ensures Patches(DoEdits(doc, Edits([], from, to)), from, to)
    decreases Depth(from), 0, 0
  {
    var xs, ys := doc.items, from.items;
    assert |xs| == |ItemsMeaning(xs, Exact)| == |ys| && xs[0..] == xs && xs[..0] == [];
    ItemsApply(xs, 0, ys, to.items);
  }

  // ----- objects

  /** Under name `k` the document still holds what is to be patched, and nothing that is to be added. */
  ghost predicate PendingAt(ms: seq<Member>, from: seq<Member>, to: seq<Member>, k: CString) {
    match Lookup(from, k)
    case Some(v) => Lookup(ms, k).Some? && Reordered(Lookup(ms, k).value, v)
    case None => Lookup(to, k).Some? ==> Lookup(ms, k).None?
  }

  ghost predicate FieldsPending(ms: seq<Member>, from: seq<Member>, to: seq<Member>) {
    forall k :: PendingAt(ms, from, to, k)
  }

  /** Under name `k` the result holds the patched value; names that the walk does not meet are left alone. */
  ghost predicate PatchedAt(r: seq<Member>, ms: seq<Member>, from: seq<Member>, to: seq<Member>, k: CString) {
    match Lookup(to, k)
    case Some(w) =>
      Lookup(r, k).Some? && Meaning(Lookup(r, k).value, IgnoreCase) == PatchedUnder(from, w, k)
    case None => Lookup(r, k) == if Lookup(from, k).Some? then None else Lookup(ms, k)
  }

  function PatchedUnder(from: seq<Member>, to: Json, k: CString): Value {
    match Lookup(from, k)
    case Some(v) => PatchedValue(v, to)
    case None => Meaning(to, IgnoreCase)
  }

  ghost predicate PatchesFields(r: Applied, ms: seq<Member>, from: seq<Member>, to: seq<Member>) {
    && r.Applied? && r.code == 0 && r.doc.Object? && WellNamed(r.doc)
    && forall k :: PatchedAt(r.doc.members, ms, from, to, k)
  }

  /** The document changed under name `k0` alone, from `ms` to `ms'`. */
  ghost predicate ChangedAt(ms: seq<Member>, ms': seq<Member>, k0: CString) {
    forall k :: k != k0 ==> Lookup(ms', k) == Lookup(ms, k)
  }

  lemma StillPending(ms: seq<Member>, ms': seq<Member>, from: seq<Member>, from': seq<Member>,
                     to: seq<Member>, to': seq<Member>, k0: CString)
    requires FieldsPending(ms, from, to) && ChangedAt(ms, ms', k0)
    requires DroppedAt(from, from', k0) && DroppedAt(to, to', k0)
    ensures FieldsPending(ms', from', to')
  {
    forall k ensures PendingAt(ms', from', to', k) {
      assert PendingAt(ms, from, to, k);
    }
  }

  lemma PatchedBefore(r: seq<Member>, ms: seq<Member>, ms': seq<Member>, from: seq<Member>, from': seq<Member>,
                      to: seq<Member>, to': seq<Member>, k0: CString)
    requires ChangedAt(ms, ms', k0) && DroppedAt(from, from', k0) && DroppedAt(to, to', k0)
    requires forall k :: PatchedAt(r, ms', from', to', k)
    requires PatchedAt(ms', ms, from, to, k0)
    ensures forall k :: PatchedAt(r, ms, from, to, k)
  {
    forall k ensures PatchedAt(r, ms, from, to, k) {
      assert PatchedAt(r, ms', from', to', k);
    }
  }

  /** The first edit's outcome, chained with the outcome of the rest of the walk. */
  lemma FieldsChain(ms: seq<Member>, ms': seq<Member>, from: seq<Member>, from': seq<Member>,
                    to: seq<Member>, to': seq<Member>, k0: CString, first: seq<Edit>)
    requires Walkable(from) && Walkable(to) && Walkable(from') && Walkable(to') && AllWellNamed(ms')
    requires FieldsPending(ms, from, to) && ChangedAt(ms, ms', k0)
    requires DroppedAt(from, from', k0) && DroppedAt(to, to', k0)
    requires DoEdits(Object(ms), first) == Applied(Object(ms'), 0) && PatchedAt(ms', ms, from, to, k0)
    requires FieldEdits([], from, to) == first + FieldEdits([], from', to')
    requires MembersDepth(from') <= MembersDepth(from) && |from'| + |to'| < |from| + |to|
    ensures PatchesFields(DoEdits(Object(ms), FieldEdits([], from, to)), ms, from, to)
    decreases MembersDepth(from), |from| + |to|, 0
  {
    hide DoEdits, FieldEdits;
    StillPending(ms, ms', from, from', to, to', k0);
    FieldsApply(ms', from', to');
    DoEditsConcat(Object(ms), first, FieldEdits([], from', to'));
    var r := DoEdits(Object(ms'), FieldEdits([], from', to'));
    PatchedBefore(r.doc.members, ms, ms', from, from', to, to', k0);
  }

  lemma {:induction false} FieldsApply(ms: seq<Member>, from: seq<Member>, to: seq<Member>)
    requires AllWellNamed(ms) && Walkable(from) && Walkable(to) && FieldsPending(ms, from, to)
    ensures PatchesFields(DoEdits(Object(ms), FieldEdits([], from, to)), ms, from, to)
    decreases MembersDepth(from), |from| + |to|, 2
  {
    if from == [] && to == [] {
      assert DoEdits(Object(ms), []) == Applied(Object(ms), 0);
    } else {
      hide DoEdits, FieldEdits;
      if from != [] && to != [] {
        CmpZero(Folded(from[0]), Folded(to[0]));
        CmpAntisymmetric(Folded(from[0]), Folded(to[0]));
      }
      if from == [] || (to != [] && Less(Folded(to[0]), Folded(from[0]))) {
        FieldNew(ms, from, to);
      } else if to == [] || Less(Folded(from[0]), Folded(to[0])) {
        FieldGone(ms, from, to);
      } else {
        FieldBoth(ms, from, to);
      }
    }
  }

  /** Which step the merge loop takes. */
  lemma FieldEditsStep(from: seq<Member>, to: seq<Member>)
    requires from != [] || to != []
    ensures FieldEdits([], from, to) ==
      if from == [] || (to != [] && Less(Folded(to[0]), Folded(from[0]))) then
        [Edit(ADD, Under([], to[0].name), Some(to[0].value))] + FieldEdits([], from, to[1..])
      else if to == [] || Less(Folded(from[0]), Folded(to[0])) then
        [Edit(REMOVE, Under([], from[0].name), None)] + FieldEdits([], from[1..], to)
      else
        Edits(Under([], from[0].name), from[0].value, to[0].value) + FieldEdits([], from[1..], to[1..])
  {
    hide Edits, Under;
    if from != [] && to != [] {
      CmpAntisymmetric(Folded(from[0]), Folded(to[0]));
    }
  }

  lemma CmpAntisymmetricHeads(from: seq<Member>, to: seq<Member>)
    ensures from != [] && to != [] && Less(Folded(from[0]), Folded(to[0])) ==> !Less(Folded(to[0]), Folded(from[0]))
  {
    if from != [] && to != [] {
      CmpAntisymmetric(Folded(from[0]), Folded(to[0]));
    }
  }

  lemma RemovesField(ms: seq<Member>, name: CString)
    requires AllWellNamed(ms)
    ensures var ms' := Without(ms, name);
      && DoEdits(Object(ms), [Edit(REMOVE, Under([], name), None)]) == Applied(Object(ms'), 0)
      && ChangedAt(ms, ms', LowerAll(name)) && Lookup(ms', LowerAll(name)).None? && AllWellNamed(ms')
  {
    hide DoRemove, Encode;
    forall k ensures Lookup(Without(ms, name), k) == if k == LowerAll(name) then None else Lookup(ms, k) {
      WithoutLookup(ms, name, k);
    }
    RemoveDistinct(ms, FindName(ms, name));
    UnderStep([], name);
    RemoveField(ms, name);
    OneEdit(Object(ms), Edit(REMOVE, Under([], name), None));
  }

  lemma FieldGone(ms: seq<Member>, from: seq<Member>, to: seq<Member>)
    requires AllWellNamed(ms) && Walkable(from) && Walkable(to) && FieldsPending(ms, from, to)
    requires from != [] && (to == [] || Less(Folded(from[0]), Folded(to[0])))
    ensures PatchesFields(DoEdits(Object(ms), FieldEdits([], from, to)), ms, from, to)
    decreases MembersDepth(from), |from| + |to|, 1
  {
    hide DoEdits, FieldEdits;
    var name, k0 := from[0].name, Folded(from[0]);
    FieldEditsStep(from, to);
    CmpAntisymmetricHeads(from, to);
    RemovesField(ms, name);
    DropHead(from);
    LaterLookup(k0, to);
    FieldsChain(ms, Without(ms, name), from, from[1..], to, to, k0, [Edit(REMOVE, Under([], name), None)]);
  }

  lemma AddsField(ms: seq<Member>, name: CString, v: Json)
    requires AllWellNamed(ms) && WellNamed(v) && Lookup(ms, LowerAll(name)).None?
    ensures var ms' := ms + [Member(name, v)];
      && DoEdits(Object(ms), [Edit(ADD, Under([], name), Some(v))]) == Applied(Object(ms'), 0)
      && ChangedAt(ms, ms', LowerAll(name)) && Lookup(ms', LowerAll(name)) == Some(v) && AllWellNamed(ms')
  {
    hide DoRemove, DoReplace, DoAdd, Encode;
    var m := Member(name, v);
    FindNameLookup(ms, name);
    forall k ensures Lookup(ms + [m], k) == if k == LowerAll(name) then Some(v) else Lookup(ms, k) {
      AppendLookup(ms, m, k);
    }
    AppendDistinct(ms, m);
    UnderStep([], name);
    AddField(ms, name, v);
    KindsDiffer();
    OneEdit(Object(ms), Edit(ADD, Under([], name), Some(v)));
  }

  lemma FieldNew(ms: seq<Member>, from: seq<Member>, to: seq<Member>)
    requires AllWellNamed(ms) && Walkable(from) && Walkable(to) && FieldsPending(ms, from, to)
    requires to != [] && (from == [] || Less(Folded(to[0]), Folded(from[0])))
    ensures PatchesFields(DoEdits(Object(ms), FieldEdits([], from, to)), ms, from, to)
    decreases MembersDepth(from), |from| + |to|, 1
  {
    hide DoEdits, FieldEdits;
    var name, v, k0 := to[0].name, to[0].value, Folded(to[0]);
    FieldEditsStep(from, to);
    LaterLookup(k0, from);
    DropHead(to);
    assert PendingAt(ms, from, to, k0);
    AddsField(ms, name, v);
    FieldsChain(ms, ms + [Member(name, v)], from, from, to, to[1..], k0, [Edit(ADD, Under([], name), Some(v))]);
  }

  /** The edits of a member that both objects have leave the patched value under its name. */
  lemma MemberApplies(ms: seq<Member>, name: CString, from: Json, to: Json) returns (ms': seq<Member>)
    requires AllWellNamed(ms) && WellNamed(to) && Lookup(ms, LowerAll(name)).Some?
    requires Reordered(Lookup(ms, LowerAll(name)).value, from)
    requires GoesInto(from, to) ==>
      Patches(DoEdits(Lookup(ms, LowerAll(name)).value, Edits([], from, to)), from, to)
    ensures DoEdits(Object(ms), Edits(Step(name), from, to)) == Applied(Object(ms'), 0)
    ensures ChangedAt(ms, ms', LowerAll(name)) && AllWellNamed(ms')
    ensures Lookup(ms', LowerAll(name)).Some? &&
      Meaning(Lookup(ms', LowerAll(name)).value, IgnoreCase) == PatchedValue(from, to)
  {
    hide DoEdits, Edits, Encode;
    var i := FindName(ms, name);
    FindNameLookup(ms, name);
    if GoesInto(from, to) {
      var v := IntoChild(Object(ms), name, i, from, to);
      ms' := ms[i := ms[i].(value := v)];
      forall k ensures Lookup(ms', k) == if k == LowerAll(name) then Some(v) else Lookup(ms, k) {
        UpdateLookup(ms, i, v, k);
      }
      UpdateDistinct(ms, i, v);
    } else {
      ChildEdits(Step(name), from, to);
      if from == to {
        ms' := ms;
        ScalarKept(ms[i].value, from, to);
        NoEdit(Object(ms));
      } else {
        ms' := ReplacesField(ms, name, to);
      }
    }
  }

  lemma NoEdit(doc: Json)
    ensures DoEdits(doc, []) == Applied(doc, 0)
  {}

  lemma ReplacesField(ms: seq<Member>, name: CString, v: Json) returns (ms': seq<Member>)
    requires AllWellNamed(ms) && WellNamed(v)
    ensures DoEdits(Object(ms), [Edit(REPLACE, Step(name), Some(v))]) == Applied(Object(ms'), 0)
    ensures ChangedAt(ms, ms', LowerAll(name)) && Lookup(ms', LowerAll(name)) == Some(v) && AllWellNamed(ms')
  {
    hide DoReplace, DoRemove, DoAdd, Encode;
    var rest, m := Without(ms, name), Member(name, v);
    ms' := rest + [m];
    RemoveDistinct(ms, FindName(ms, name));
    WithoutLookup(ms, name, LowerAll(name));
    forall k ensures Lookup(ms', k) == if k == LowerAll(name) then Some(v) else Lookup(ms, k) {
      WithoutLookup(ms, name, k);
      AppendLookup(rest, m, k);
    }
    AppendDistinct(rest, m);
    KindsDiffer();
    ReplaceField(ms, name, v);
    OneEdit(Object(ms), Edit(REPLACE, Step(name), Some(v)));
  }

  lemma BothPatchedAt(ms': seq<Member>, ms: seq<Member>, from: seq<Member>, to: seq<Member>)
    requires from != [] && to != [] && Folded(from[0]) == Folded(to[0]) && Lookup(ms', Folded(to[0])).Some?
    requires Meaning(Lookup(ms', Folded(to[0])).value, IgnoreCase) == PatchedValue(from[0].value, to[0].value)
    ensures PatchedAt(ms', ms, from, to, Folded(to[0]))
  {}

  lemma FieldBoth(ms: seq<Member>, from: seq<Member>, to: seq<Member>)
    requires AllWellNamed(ms) && Walkable(from) && Walkable(to) && FieldsPending(ms, from, to)
    requires from != [] && to != [] && Folded(from[0]) == Folded(to[0])
    ensures PatchesFields(DoEdits(Object(ms), FieldEdits([], from, to)), ms, from, to)
    decreases MembersDepth(from), |from| + |to|, 1
  {
    hide DoEdits, Edits, FieldEdits, PatchedAt;
    var name, k0 := from[0].name, Folded(from[0]);
    FieldEditsStep(from, to);
    CmpZero(k0, k0);
    DropHead(from);
    DropHead(to);
    assert PendingAt(ms, from, to, k0);
    var c := Lookup(ms, k0).value;
    LookupWellNamed(ms, k0);
    if GoesInto(from[0].value, to[0].value) {
      ContainerApplies(c, from[0].value, to[0].value);
    }
    var ms' := MemberApplies(ms, name, from[0].value, to[0].value);
    UnderStep([], name);
    BothPatchedAt(ms', ms, from, to);
    FieldsChain(ms, ms', from, from[1..], to, to[1..], k0, Edits(Step(name), from[0].value, to[0].value));
  }

  lemma ObjectApplies(doc: Json, from: Json, to: Json)
    requires from.Object? && to.Object? && Reordered(doc, from) && WellNamed(doc) && WellNamed(from) && WellNamed(to)
    ensures Patches(DoEdits(doc, Edits([], from, to)), from, to)
    decreases Depth(from), 0, 0
  {
    hide DoEdits, FieldEdits;
    var ms, fs, ts := doc.members, SortMembers(from.members), SortMembers(to.members);
    SortFacts(from.members);
    SortFacts(to.members);
    forall k ensures Lookup(from.members, k) == Lookup(fs, k) && Lookup(to.members, k) == Lookup(ts, k) {
      LookupPermuted(from.members, fs, k);
      LookupPermuted(to.members, ts, k);
    }
    forall k ensures PendingAt(ms, fs, ts, k) && (Lookup(fs, k).None? ==> Lookup(ms, k).None?) {
      ReorderedLookup(from.members, ms, k);
      ReorderedLookup(ms, from.members, k);
    }
    FieldsApply(ms, fs, ts);
    var r := DoEdits(doc, FieldEdits([], fs, ts));
    forall k ensures PatchedAt(r.doc.members, ms, from.members, to.members, k) {
      assert PatchedAt(r.doc.members, ms, fs, ts, k);
    }
    PatchedObject(r.doc.members, ms, from.members, to.members);
  }

  lemma PatchedObject(r: seq<Member>, ms: seq<Member>, from: seq<Member>, to: seq<Member>)
    requires forall k :: PatchedAt(r, ms, from, to, k)
    requires forall k :: Lookup(from, k).None? ==> Lookup(ms, k).None?
    ensures FieldsMeaning(r, IgnoreCase) == PatchedFields(from, to)
  {
    var f, g := FieldsMeaning(r, IgnoreCase), PatchedFields(from, to);
    forall k ensures (k in f <==> k in g) && (k in f ==> f[k] == g[k]) {
      assert PatchedAt(r, ms, from, to, k);
      LookupMeaning(r, k);
      PatchedFieldAt(from, to, k);
    }
  }

  // ----- the main results

  lemma {:induction false} EditsKnown(path: CString, from: Json, to: Json)
    ensures AllKnown(Edits(path, from, to))
    decreases Depth(from), 0
  {
    if SameType(from, to) {
      match from
      case Array(xs) => ItemEditsKnown(path, 0, xs, to.items);
      case Object(ms) =>
        SortFacts(ms);
        FieldEditsKnown(path, SortMembers(ms), SortMembers(to.members));
      case _ =>
    }
  }

  lemma {:induction false} KnownConcat(a: seq<Edit>, b: seq<Edit>)
    requires AllKnown(a) && AllKnown(b)
    ensures AllKnown(a + b)
  {
    if a == [] {
      assert a + b == b;
    } else {
      KnownConcat(a[1..], b);
      assert (a + b)[1..] == a[1..] + b;
    }
  }

  lemma {:induction false} ItemEditsKnown(path: CString, c: nat, from: seq<Json>, to: seq<Json>)
    ensures AllKnown(ItemEdits(path, c, from, to))
    decreases ItemsDepth(from), |from| + |to|
  {
    if from != [] && to != [] {
      EditsKnown(path + [SLASH] + Digits(c), from[0], to[0]);
      ItemEditsKnown(path, c + 1, from[1..], to[1..]);
      KnownConcat(Edits(path + [SLASH] + Digits(c), from[0], to[0]), ItemEdits(path, c + 1, from[1..], to[1..]));
    } else if from != [] {
      ItemEditsKnown(path, c + 1, from[1..], to);
      KnownConcat([Edit(REMOVE, Under(path, Digits(c)), None)], ItemEdits(path, c + 1, from[1..], to));
    } else if to != [] {
      ItemEditsKnown(path, c + 1, from, to[1..]);
      KnownConcat([Edit(ADD, Under(path, [MINUS]), Some(to[0]))], ItemEdits(path, c + 1, from, to[1..]));
    }
  }

  lemma {:induction false} FieldEditsKnown(path: CString, from: seq<Member>, to: seq<Member>)
    ensures AllKnown(FieldEdits(path, from, to))
    decreases MembersDepth(from), |from| + |to|
  {
    if from != [] || to != [] {
      var diff := if from == [] then 1 else if to == [] then -1 else CaseCmp(from[0].name, to[0].name);
      if diff == 0 {
        var p := Under(path, from[0].name);
        EditsKnown(p, from[0].value, to[0].value);
        FieldEditsKnown(path, from[1..], to[1..]);
        KnownConcat(Edits(p, from[0].value, to[0].value), FieldEdits(path, from[1..], to[1..]));
      } else if diff < 0 {
        FieldEditsKnown(path, from[1..], to);
        KnownConcat([Edit(REMOVE, Under(path, from[0].name), None)], FieldEdits(path, from[1..], to));
      } else {
        FieldEditsKnown(path, from, to[1..]);
        KnownConcat([Edit(ADD, Under(path, to[0].name), Some(to[0].value))], FieldEdits(path, from, to[1..]));
      }
    }
  }

  /** A path without a slash, which a replacement of the root has, is not handled. */
  predicate RootsHandled(from: Json, to: Json) {
    GoesInto(from, to) || from == to
  }

  /** The exact outcome, for any document equal to `from` up to member order. */
  lemma GeneratedPatchOutcome(doc: Json, from: Json, to: Json)
    requires WellNamed(doc) && WellNamed(from) && WellNamed(to) && Reordered(doc, from)
    ensures var r := ApplyPatches(doc, GeneratePatches(from, to));
      if RootsHandled(from, to)
      then r.Applied? && r.code == 0 && WellNamed(r.doc) && Meaning(r.doc, IgnoreCase) == PatchedValue(from, to)
      else r == Undefined
  {
    var es := Edits([], from, to);
    EditsKnown([], from, to);
    ApplyAsEdits(doc, es);
    hide AsPatches;
    if GoesInto(from, to) {
      ContainerApplies(doc, from, to);
    } else {
      ChildEdits([], from, to);
      if from == to {
        ScalarKept(doc, from, to);
      } else {
        assert SplitPath([]) == None;
      }
    }
  }

  /**
   * Applying the patches generated from `from` to `to` to a copy of `from` gives a tree that compares equal
   * to `to` exactly when the roots are handled and no compared array is to shrink by more than one item.
   */
  lemma PatchRoundTrip(doc: Json, from: Json, to: Json)
    requires WellNamed(doc) && WellNamed(from) && WellNamed(to) && Reordered(doc, from)
    ensures var r := ApplyPatches(doc, GeneratePatches(from, to));
      r.Applied? && r.code == 0 && Compare(r.doc, to).code == 0 <==>
      RootsHandled(from, to) && ShrinksByAtMostOne(from, to)
  {
    hide ApplyPatches, GeneratePatches, Compare;
    GeneratedPatchOutcome(doc, from, to);
    PatchedIsWanted(from, to);
    var r := ApplyPatches(doc, GeneratePatches(from, to));
    if r.Applied? {
      CompareDecides(r.doc, to);
    }
  }

  /** From `[1, 2, 3]` to `[1]`: the second removal meets an index that no longer exists. */
  lemma ShrinkByTwoFails()
    ensures var from, to := Array([Number(1.0), Number(2.0), Number(3.0)]), Array([Number(1.0)]);
      var r := ApplyPatches(from, GeneratePatches(from, to));
      r.Applied? && r.code == 0 && Equivalent(r.doc, Array([Number(1.0), Number(3.0)]))
  {
    var from, to := Array([Number(1.0), Number(2.0), Number(3.0)]), Array([Number(1.0)]);
    GeneratedPatchOutcome(from, from, to);
    assert Survivors(from.items[1..]) == [Number(3.0)];
  }

  // ----- no patches

  /** The generator and the comparison walk both trees in the same way. */
  lemma {:induction false} NoEdits(path: CString, from: Json, to: Json)
    ensures Edits(path, from, to) == [] <==> Compare(from, to).code == 0
    decreases Depth(from), 0
  {
    if SameType(from, to) {
      match from
      case Array(xs) => NoItemEdits(path, 0, xs, to.items);
      case Object(ms) =>
        SortFacts(ms);
        NoFieldEdits(path, SortMembers(ms), SortMembers(to.members));
      case _ =>
    }
  }

  lemma {:induction false} NoItemEdits(path: CString, c: nat, from: seq<Json>, to: seq<Json>)
    ensures ItemEdits(path, c, from, to) == [] <==> CompareItems(from, to).code == 0
    decreases ItemsDepth(from), |from| + |to|
  {
    hide Edits, Compare, Digits, Under;
    if from != [] && to != [] {
      NoEdits(path + [SLASH] + Digits(c), from[0], to[0]);
      NoItemEdits(path, c + 1, from[1..], to[1..]);
    }
  }

  lemma {:induction false} NoFieldEdits(path: CString, from: seq<Member>, to: seq<Member>)
    ensures FieldEdits(path, from, to) == [] <==> CompareFields(from, to).code == 0
    decreases MembersDepth(from), |from| + |to|
  {
    hide Edits, Compare, Under, CaseCmp;
    if from != [] && to != [] && CaseCmp(from[0].name, to[0].name) == 0 {
      NoEdits(Under(path, from[0].name), from[0].value, to[0].value);
      NoFieldEdits(path, from[1..], to[1..]);
    }
  }

  /** No patches are generated exactly for trees that are alike. */
  lemma NoPatchesWhenAlike(from: Json, to: Json)
    requires WellNamed(from) && WellNamed(to)
    ensures GeneratePatches(from, to) == Array([]) <==> Alike(from, to)
  {
    hide Edits, Compare, Alike, WellNamed;
    NoEdits([], from, to);
    CompareLikeness(from, to);
  }
}
