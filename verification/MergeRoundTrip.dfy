/**
 * What a generated merge patch does: when there is none, when it is the patch between the values of the trees, and
 * when merging it into the first tree gives the second.
 */
module MergeRoundTrip {
  import opened Bytes
  import opened Comparing
  import opened Members
  import opened MergeFates
  import opened MergeGeneration
  import opened MergeValues
  import opened Merging
  import opened Options
  import opened Sorting
  import opened Trees
  import opened Walking

  // ----- when there is no patch

  ghost predicate SameKeys(from: seq<Member>, to: seq<Member>) {
    FieldsMeaning(from, Exact).Keys == FieldsMeaning(to, Exact).Keys
  }

  /** No patch: two objects that compare equal and whose own names are the same byte for byte. */
  lemma {:induction false} NoPatch(from: Json, to: Json)
    requires WellNamed(from) && WellNamed(to)
    ensures GenerateMergePatch(from, to).None? <==>
      from.Object? && to.Object? && SameKeys(from.members, to.members) && Equivalent(from, to)
    decreases Depth(from), 0
  {
    if from.Object? && to.Object? {
      var fs, ts := SortMembers(from.members), SortMembers(to.members);
      SortFacts(from.members);
      SortFacts(to.members);
      SortMeaning(from.members, Exact);
      SortMeaning(to.members, Exact);
      SortMeaning(from.members, IgnoreCase);
      SortMeaning(to.members, IgnoreCase);
      NoMembers(fs, ts);
      if SameKeys(from.members, to.members) {
        SortedNames(fs, ts);
      }
      if SameNames(fs, ts) {
        NamesKeys(fs, ts);
      }
    }
  }

  lemma NamesKeys(xs: seq<Member>, ys: seq<Member>)
    requires SameNames(xs, ys)
    ensures SameKeys(xs, ys)
  {
    NamesIn(xs, ys);
    NamesIn(ys, xs);
  }

  lemma NamesIn(xs: seq<Member>, ys: seq<Member>)
    requires SameNames(xs, ys)
    ensures FieldsMeaning(xs, Exact).Keys <= FieldsMeaning(ys, Exact).Keys
  {
    FieldNames(ys, Exact);
    forall k | k in FieldsMeaning(xs, Exact) ensures k in FieldsMeaning(ys, Exact) {
      var i := NameAt(xs, k);
      assert ys[i] in ys && Label(ys[i].name, Exact) == k;
    }
  }

  lemma {:induction false} NoMembers(from: seq<Member>, to: seq<Member>)
    requires Walkable(from) && Walkable(to)
    ensures GenerateMembers(from, to) == [] <==>
      SameNames(from, to) && FieldsMeaning(from, IgnoreCase) == FieldsMeaning(to, IgnoreCase)
    decreases MembersDepth(from), |from| + |to|, 2
  {
    hide MemberPatch, Walkable;
    if from != [] && to != [] {
      CmpZero(from[0].name, to[0].name);
      if HeadOrder(from, to) == 0 {
        DropHead(from);
        DropHead(to);
        NoMembers(from[1..], to[1..]);
        NoMemberPatch(from[0].value, to[0].value);
        NamesStep(from, to);
        WalkableStep(from, to);
      }
    }
  }

  lemma NamesStep(from: seq<Member>, to: seq<Member>)
    requires from != [] && to != [] && from[0].name == to[0].name
    ensures SameNames(from, to) <==> SameNames(from[1..], to[1..])
  {
    if SameNames(from[1..], to[1..]) {
      forall i | 0 <= i < |from| ensures from[i].name == to[i].name {
        assert i > 0 ==> from[i] == from[1..][i - 1] && to[i] == to[1..][i - 1];
      }
    }
  }

  lemma WalkableStep(from: seq<Member>, to: seq<Member>)
    requires Walkable(from) && Walkable(to) && from != [] && to != []
    ensures FieldsMeaning(from, IgnoreCase) == FieldsMeaning(to, IgnoreCase) <==>
      Folded(from[0]) == Folded(to[0]) && Equivalent(from[0].value, to[0].value) &&
      FieldsMeaning(from[1..], IgnoreCase) == FieldsMeaning(to[1..], IgnoreCase)
  {
    FieldsStep(from, to);
  }

  lemma {:induction false} NoMemberPatch(from: Json, to: Json)
    requires WellNamed(from) && WellNamed(to)
    ensures MemberPatch(from, to).None? <==> Equivalent(from, to)
    decreases Depth(from), 1
  {
    var r := ComparedFacts(from, to);
    if r.code != 0 {
      NoPatch(r.a, r.b);
    }
  }

  /** What comparing two members says about them, and about the reordered trees that the patch is made from. */
  lemma ComparedFacts(from: Json, to: Json) returns (r: Comparison)
    requires WellNamed(from) && WellNamed(to)
    ensures r == Compare(from, to) && (r.code == 0 <==> Equivalent(from, to)) && Depth(r.a) == Depth(from)
    ensures WellNamed(r.a) && WellNamed(r.b) && Reordered(from, r.a) && Reordered(to, r.b)
    ensures Equivalent(from, r.a) && Equivalent(to, r.b)
  {
    r := Compare(from, to);
    CompareDecides(from, to);
    CompareReorders(from, to);
    CompareDepth(from, to);
    ReorderedEquivalent(from, r.a);
    ReorderedEquivalent(to, r.b);
  }

  // ----- when merging restores the second tree

  function Fated(from: Json, to: Json, k: CString): Fate
    requires from.Object? && to.Object?
  {
    FateOf(SortMembers(from.members), SortMembers(to.members), k)
  }

  lemma FatedFacts(from: Json, to: Json, k: CString)
    requires from.Object? && to.Object? && WellNamed(from) && WellNamed(to)
    ensures Lookup(SortMembers(from.members), k) == Lookup(from.members, k)
    ensures Lookup(SortMembers(to.members), k) == Lookup(to.members, k)
    ensures var fate := Fated(from, to, k);
      && (Lookup(from.members, k).Some? <==> fate.Deleted? || fate.Met? || fate.Readded? || fate.Lost?)
      && (Lookup(to.members, k).Some? <==> fate.Added? || fate.Met? || fate.Readded? || fate.Lost?)
    ensures Lookup(from.members, k).Some? ==>
      WellNamed(Lookup(from.members, k).value) && Depth(Lookup(from.members, k).value) < Depth(from)
    ensures Lookup(to.members, k).Some? ==> WellNamed(Lookup(to.members, k).value)
  {
    hide FateOf, MembersDepth;
    SortFacts(from.members);
    SortFacts(to.members);
    LookupPermuted(from.members, SortMembers(from.members), k);
    LookupPermuted(to.members, SortMembers(to.members), k);
    LookupWellNamed(from.members, k);
    LookupWellNamed(to.members, k);
    if Lookup(from.members, k).Some? {
      LookupBelow(from.members, k);
    }
  }

  /**
   * Merging the generated patch restores `to`. Of two objects, no member of `to` may be put and then deleted; where
   * the walk meets a member it must be equal already, or not null and restored in turn; all others are put as they
   * are and must not be null or hold one.
   */
  ghost predicate Restores(from: Json, to: Json)
    requires WellNamed(from) && WellNamed(to)
    decreases Depth(from), 1
  {
    if from.Object? && to.Object? then forall k :: RestoredAt(from, to, k) else NullFree(Meaning(to, IgnoreCase))
  }

  ghost predicate RestoredAt(from: Json, to: Json, k: CString)
    requires from.Object? && to.Object? && WellNamed(from) && WellNamed(to)
    decreases Depth(from), 0
  {
    FatedFacts(from, to, k);
    match Fated(from, to, k)
    case Absent => true
    case Deleted => true
    case Lost => false
    case Met =>
      var f, t := Lookup(from.members, k).value, Lookup(to.members, k).value;
      Equivalent(f, t) || (!t.Null? && Restores(f, t))
    case _ => PutIntact(Lookup(to.members, k).value)
  }

  ghost predicate PutIntact(t: Json) {
    !t.Null? && NullFree(Meaning(t, IgnoreCase))
  }

  /** Wherever the patch goes into two objects, the walk meets every name that both have. */
  ghost predicate Aligned(from: Json, to: Json)
    requires WellNamed(from) && WellNamed(to)
    decreases Depth(from), 1
  {
    from.Object? && to.Object? ==> forall k :: AlignedAt(from, to, k)
  }

  ghost predicate AlignedAt(from: Json, to: Json, k: CString)
    requires from.Object? && to.Object? && WellNamed(from) && WellNamed(to)
    decreases Depth(from), 0
  {
    FatedFacts(from, to, k);
    var fate := Fated(from, to, k);
    && !fate.Lost? && !fate.Readded?
    && (fate.Met? ==>
        var f, t := Lookup(from.members, k).value, Lookup(to.members, k).value;
        Equivalent(f, t) || Aligned(f, t))
  }

  // ----- neither depends on the order of members

  lemma FatedReordered(from: Json, to: Json, from': Json, to': Json, k: CString)
    requires WellNamed(from) && WellNamed(to) && WellNamed(from') && WellNamed(to')
    requires from.Object? && to.Object? && Reordered(from, from') && Reordered(to, to')
    ensures Fated(from, to, k) == Fated(from', to', k)
    ensures LookupReordered(from, from', k) && LookupReordered(to, to', k)
  {
    SortedReordered(from.members, from'.members);
    SortedReordered(to.members, to'.members);
    SameFates(SortMembers(from.members), SortMembers(to.members),
              SortMembers(from'.members), SortMembers(to'.members), k);
    LookupsReordered(from, from', k);
    LookupsReordered(to, to', k);
  }

  ghost predicate LookupReordered(a: Json, b: Json, k: CString)
    requires a.Object? && b.Object?
  {
    var x, y := Lookup(a.members, k), Lookup(b.members, k);
    (x.Some? <==> y.Some?) && (x.Some? ==> Reordered(x.value, y.value) && Equivalent(x.value, y.value))
  }

  lemma LookupsReordered(a: Json, b: Json, k: CString)
    requires WellNamed(a) && WellNamed(b) && a.Object? && b.Object? && Reordered(a, b)
    ensures LookupReordered(a, b, k)
  {
    ReorderedLookup(a.members, b.members, k);
    ReorderedLookup(b.members, a.members, k);
    LookupWellNamed(a.members, k);
    LookupWellNamed(b.members, k);
    if Lookup(a.members, k).Some? {
      ReorderedEquivalent(Lookup(a.members, k).value, Lookup(b.members, k).value);
    }
  }

  lemma SortedReordered(xs: seq<Member>, ys: seq<Member>)
    requires AllWellNamed(xs) && AllWellNamed(ys) && FieldsMeaning(xs, Exact) == FieldsMeaning(ys, Exact)
    ensures SameNames(SortMembers(xs), SortMembers(ys))
  {
    SortFacts(xs);
    SortFacts(ys);
    SortMeaning(xs, Exact);
    SortMeaning(ys, Exact);
    SortedNames(SortMembers(xs), SortMembers(ys));
  }

  lemma {:induction false} ReorderedRestores(from: Json, to: Json, from': Json, to': Json)
    requires WellNamed(from) && WellNamed(to) && WellNamed(from') && WellNamed(to')
    requires Reordered(from, from') && Reordered(to, to')
    ensures Restores(from, to) <==> Restores(from', to')
    ensures Aligned(from, to) <==> Aligned(from', to')
    decreases Depth(from)
  {
    ReorderedEquivalent(to, to');
    if from.Object? && to.Object? {
      forall k
        ensures RestoredAt(from, to, k) <==> RestoredAt(from', to', k)
        ensures AlignedAt(from, to, k) <==> AlignedAt(from', to', k)
      {
        ReorderedAt(from, to, from', to', k);
      }
    }
  }

  lemma {:induction false} ReorderedAt(from: Json, to: Json, from': Json, to': Json, k: CString)
    requires WellNamed(from) && WellNamed(to) && WellNamed(from') && WellNamed(to')
    requires from.Object? && to.Object? && Reordered(from, from') && Reordered(to, to')
    ensures RestoredAt(from, to, k) <==> RestoredAt(from', to', k)
    ensures AlignedAt(from, to, k) <==> AlignedAt(from', to', k)
    decreases Depth(from), 0
  {
    hide Fated, WellNamed, NullFree;
    FatedReordered(from, to, from', to', k);
    FatedFacts(from, to, k);
    FatedFacts(from', to', k);
    if Fated(from, to, k).Met? {
      ReorderedRestores(Lookup(from.members, k).value, Lookup(to.members, k).value,
                        Lookup(from'.members, k).value, Lookup(to'.members, k).value);
    }
  }

  // ----- the round trip

  ghost predicate SameMembers(a: seq<Member>, b: seq<Member>) {
    forall k :: MeaningOf(Lookup(a, k)) == MeaningOf(Lookup(b, k))
  }

  /** Two objects mean the same exactly when every name holds equal values in both. */
  lemma ObjectsEquivalent(a: seq<Member>, b: seq<Member>)
    ensures Equivalent(Object(a), Object(b)) <==> SameMembers(a, b)
  {
    hide Meaning;
    var f, g := FieldsMeaning(a, IgnoreCase), FieldsMeaning(b, IgnoreCase);
    forall k
      ensures Find(f, k) == MeaningOf(Lookup(a, k)) && Find(g, k) == MeaningOf(Lookup(b, k))
    {
      LookupMeaning(a, k);
      LookupMeaning(b, k);
    }
    SameFields(f, g);
    ObjectMeaning(a);
    ObjectMeaning(b);
    if SameMembers(a, b) {
      forall k ensures Find(f, k) == Find(g, k) {
        assert MeaningOf(Lookup(a, k)) == MeaningOf(Lookup(b, k));
      }
    }
  }

  lemma ObjectMeaning(ms: seq<Member>)
    ensures Meaning(Object(ms), IgnoreCase) == VObject(FieldsMeaning(ms, IgnoreCase))
  {}

  /** `doc` after the merge; without a patch it stays as it is. */
  function AfterMerge(doc: Json, patch: Option<Json>): Json {
    match patch
    case None => doc
    case Some(p) => MergePatch(Some(doc), p)
  }

  lemma PutAlone(t: Json)
    requires WellNamed(t)
    ensures MeaningOf(Merged(None, Some(t))) == Some(Meaning(t, IgnoreCase)) <==> PutIntact(t)
  {
    hide MergePatch, MergeValue, NullFree;
    MergeIsRfc7396(None, t);
    MergeIntoNothing(None, Meaning(t, IgnoreCase));
  }

  /** Merging the patch into a reordered `from` gives a tree that means what `to` means exactly when it restores it. */
  lemma {:induction false} MergeGivesWanted(doc: Json, from: Json, to: Json)
    requires WellNamed(doc) && WellNamed(from) && WellNamed(to) && Reordered(doc, from)
    ensures var r := AfterMerge(doc, GenerateMergePatch(from, to));
      WellNamed(r) && (Equivalent(r, to) <==> Restores(from, to))
    decreases Depth(from), 1
  {
    if from.Object? && to.Object? {
      MergeGivesMembers(doc, from, to);
    } else {
      PutWhole(doc, to);
    }
  }

  /** A patch that is no object, or that meets none, is put as it is. */
  lemma PutWhole(doc: Json, to: Json)
    requires WellNamed(doc) && WellNamed(to) && !(doc.Object? && to.Object?)
    ensures var r := MergePatch(Some(doc), to);
      WellNamed(r) && (Equivalent(r, to) <==> NullFree(Meaning(to, IgnoreCase)))
  {
    if to.Object? {
      hide MergePatch, MergeValue, NullFree;
      MergeWellNamed(Some(doc), to);
      MergeIsRfc7396(Some(doc), to);
      MergeIntoNothing(Some(Meaning(doc, IgnoreCase)), Meaning(to, IgnoreCase));
    }
  }

  lemma AfterObjectMerge(doc: Json, from: Json, to: Json)
    requires doc.Object? && from.Object? && to.Object?
    ensures var patch := GenerateMembers(SortMembers(from.members), SortMembers(to.members));
      AfterMerge(doc, GenerateMergePatch(from, to)) == Object(MergeMembers(doc.members, patch))
  {
    hide GenerateMembers;
    assert MergeMembers(doc.members, []) == doc.members;
  }

  lemma {:induction false} MergeGivesMembers(doc: Json, from: Json, to: Json)
    requires WellNamed(doc) && WellNamed(from) && WellNamed(to) && Reordered(doc, from)
    requires doc.Object? && from.Object? && to.Object?
    ensures var r := AfterMerge(doc, GenerateMergePatch(from, to));
      WellNamed(r) && (Equivalent(r, to) <==> Restores(from, to))
    decreases Depth(from), 0, 1
  {
    hide RestoredAt, Effect, Says, Told, AllMergeable, MergeMembers, Meaning, FateOf, GenerateMembers, AfterMerge;
    var fs, ts := SortMembers(from.members), SortMembers(to.members);
    var patch := GenerateMembers(fs, ts);
    var r := MergeMembers(doc.members, patch);
    SortFacts(from.members);
    SortFacts(to.members);
    MembersMergeable(fs, ts);
    MergeSays(doc.members, patch);
    forall k
      ensures MeaningOf(Lookup(r, k)) == MeaningOf(Lookup(to.members, k)) <==> RestoredAt(from, to, k)
    {
      GeneratedSays(fs, ts, k);
      MergeGivesMember(doc, from, to, k);
    }
    ObjectsEquivalent(r, to.members);
    AfterObjectMerge(doc, from, to);
  }

  lemma {:induction false} MergeGivesMember(doc: Json, from: Json, to: Json, k: CString)
    requires WellNamed(doc) && WellNamed(from) && WellNamed(to) && Reordered(doc, from)
    requires doc.Object? && from.Object? && to.Object?
    ensures var fs, ts := SortMembers(from.members), SortMembers(to.members);
      var told := Told(FateOf(fs, ts, k), Lookup(fs, k), Lookup(ts, k));
      MeaningOf(Effect(Lookup(doc.members, k), told)) == MeaningOf(Lookup(to.members, k)) <==> RestoredAt(from, to, k)
    decreases Depth(from), 0, 0
  {
    hide FateOf, NullFree, MergePatch, MemberPatch;
    FatedFacts(from, to, k);
    LookupsReordered(doc, from, k);
    LookupWellNamed(doc.members, k);
    var was, f, t := Lookup(doc.members, k), Lookup(from.members, k), Lookup(to.members, k);
    match Fated(from, to, k)
    case Absent =>
    case Deleted =>
    case Added => PutAlone(t.value);
    case Readded =>
      PutAlone(t.value);
      EffectReadded(was, t.value);
    case Lost => EffectLost(was, t.value);
    case Met => MergeGivesMet(was.value, f.value, t.value);
  }

  lemma EffectReadded(was: Option<Json>, t: Json)
    ensures Effect(was, [Null, t]) == Merged(None, Some(t))
  {
    hide MergePatch;
    EffectHead(was, Null, [t]);
    EffectHead(None, t, []);
    assert [Null] + [t] == [Null, t] && [t] + [] == [t];
  }

  lemma EffectLost(was: Option<Json>, t: Json)
    ensures Effect(was, [t, Null]) == None
  {
    hide MergePatch;
    EffectHead(was, t, [Null]);
    EffectHead(Merged(was, Some(t)), Null, []);
    assert [t] + [Null] == [t, Null] && [Null] + [] == [Null];
  }

  /** A member that the walk meets. */
  lemma {:induction false} MergeGivesMet(was: Json, f: Json, t: Json)
    requires WellNamed(was) && WellNamed(f) && WellNamed(t) && Reordered(was, f)
    ensures MeaningOf(Effect(Some(was), Told(Met, Some(f), Some(t)))) == Some(Meaning(t, IgnoreCase)) <==>
      Equivalent(f, t) || (!t.Null? && Restores(f, t))
    decreases Depth(f), 2
  {
    hide MergePatch, Restores, WellNamed, GenerateMergePatch;
    var r := ComparedFacts(f, t);
    ReorderedEquivalent(was, f);
    if r.code != 0 {
      MergeGivesWanted(was, r.a, r.b);
      ReorderedRestores(f, t, r.a, r.b);
      NullPatch(r.a, r.b);
    }
  }

  lemma NullPatch(from: Json, to: Json)
    ensures GenerateMergePatch(from, to) == Some(Null) <==> to.Null?
  {}

  /**
   * The patch is NULL exactly when both trees are objects that compare equal and have the same names byte for byte;
   * otherwise merging it into a copy of `from` gives a tree that compares equal to `to` exactly when it restores it.
   */
  lemma MergeRoundTrip(doc: Json, from: Json, to: Json)
    requires WellNamed(doc) && WellNamed(from) && WellNamed(to) && Reordered(doc, from)
    ensures var p := GenerateMergePatch(from, to);
      if p.None? then from.Object? && to.Object? && SameKeys(from.members, to.members) && Compare(from, to).code == 0
      else
        && !(from.Object? && to.Object? && SameKeys(from.members, to.members) && Compare(from, to).code == 0)
        && (Compare(MergePatch(Some(doc), p.value), to).code == 0 <==> Restores(from, to))
  {
    hide Compare, MergePatch, GenerateMergePatch, Restores, WellNamed, SameKeys;
    NoPatch(from, to);
    CompareDecides(from, to);
    MergeGivesWanted(doc, from, to);
    CompareDecides(AfterMerge(doc, GenerateMergePatch(from, to)), to);
  }

  // ----- the patch as the patch between the values

  /** What the generated members say about a name, on values. */
  function StepOf(from: Option<Json>, to: Option<Json>): Option<Value> {
    match to
    case None => if from.Some? then Some(VNull) else None
    case Some(t) =>
      var v := Meaning(t, IgnoreCase);
      if from.None? then Some(v)
      else if Meaning(from.value, IgnoreCase) == v then None
      else MergeBetween(Meaning(from.value, IgnoreCase), v)
  }

  /** The patch says about every name what the patch between the values says. */
  ghost predicate StepsBetween(patch: seq<Member>, from: seq<Member>, to: seq<Member>) {
    forall k :: MeaningOf(Lookup(patch, k)) == StepOf(Lookup(from, k), Lookup(to, k))
  }

  /**
   * The patch names every member once, at every level, exactly when the trees are aligned; then it is the patch
   * between their values.
   */
  lemma {:induction false} GenerateMeaning(from: Json, to: Json)
    requires WellNamed(from) && WellNamed(to)
    ensures var p := GenerateMergePatch(from, to);
      && (Aligned(from, to) <==> p.None? || WellNamed(p.value))
      && (Aligned(from, to) ==> MeaningOf(p) == MergeBetween(Meaning(from, IgnoreCase), Meaning(to, IgnoreCase)))
    decreases Depth(from), 1
  {
    if from.Object? && to.Object? {
      MembersMeaning(from, to);
      var patch := GenerateMembers(SortMembers(from.members), SortMembers(to.members));
      if Aligned(from, to) {
        ObjectGenerates(from, to, patch);
      }
    }
  }

  lemma ObjectGenerates(from: Json, to: Json, patch: seq<Member>)
    requires from.Object? && to.Object? && StepsBetween(patch, from.members, to.members)
    ensures MeaningOf(if patch == [] then None else Some(Object(patch))) ==
      MergeBetween(Meaning(from, IgnoreCase), Meaning(to, IgnoreCase))
  {
    hide MergeBetween;
    var f, t := Meaning(from, IgnoreCase), Meaning(to, IgnoreCase);
    var r := FieldsMeaning(patch, IgnoreCase);
    forall k ensures Find(r, k) == MergeStep(f, t, k) {
      LookupMeaning(from.members, k);
      LookupMeaning(to.members, k);
      LookupMeaning(patch, k);
      assert MeaningOf(Lookup(patch, k)) == StepOf(Lookup(from.members, k), Lookup(to.members, k));
    }
    FieldsAreSteps(f, t, r);
    assert patch == [] <==> r == map[] by {
      if patch != [] {
        assert Folded(patch[0]) in r;
      }
    }
  }

  lemma FieldsAreSteps(f: Value, t: Value, r: map<CString, Value>)
    requires f.VObject? && t.VObject? && forall k :: Find(r, k) == MergeStep(f, t, k)
    ensures MergeBetween(f, t) == if r == map[] then None else Some(VObject(r))
  {
    var p := map k | k in f.fields.Keys + t.fields.Keys && MergeStep(f, t, k).Some? :: MergeStep(f, t, k).value;
    forall k ensures Find(p, k) == Find(r, k) {
      assert Find(r, k) == MergeStep(f, t, k);
    }
    SameFields(p, r);
  }

  ghost predicate WellSaid(says: seq<Json>) {
    |says| <= 1 && forall v | v in says :: WellNamed(v)
  }

  ghost predicate AllWellSaid(patch: seq<Member>) {
    forall k :: WellSaid(Says(patch, k))
  }

  /** The members of a patch are well named exactly when it says at most one thing about a name, and says it well. */
  lemma WellSaidNamed(patch: seq<Member>)
    ensures AllWellNamed(patch) <==> AllWellSaid(patch)
  {
    SaysDistinct(patch);
    if AllWellNamed(patch) {
      forall k ensures WellSaid(Says(patch, k)) {
        forall v | v in Says(patch, k) ensures WellNamed(v) {
          SaysFrom(patch, k, v);
        }
        assert |Says(patch, k)| <= 1;
      }
    }
    if AllWellSaid(patch) {
      forall m | m in patch ensures WellNamed(m.value) {
        SaysMember(patch, m);
        assert WellSaid(Says(patch, Folded(m)));
      }
      forall k ensures |Says(patch, k)| <= 1 {
        assert WellSaid(Says(patch, k));
      }
    }
  }

  lemma {:induction false} MembersMeaning(from: Json, to: Json)
    requires WellNamed(from) && WellNamed(to) && from.Object? && to.Object?
    ensures var patch := GenerateMembers(SortMembers(from.members), SortMembers(to.members));
      && (Aligned(from, to) <==> AllWellNamed(patch))
      && (Aligned(from, to) ==> StepsBetween(patch, from.members, to.members))
    decreases Depth(from), 0, 1
  {
    hide AlignedAt, Says, Told, FateOf, GenerateMembers, WellSaid, MeaningOf, StepOf, AllWellNamed;
    var fs, ts := SortMembers(from.members), SortMembers(to.members);
    var patch := GenerateMembers(fs, ts);
    SortedDistinct(from);
    SortedDistinct(to);
    WellSaidNamed(patch);
    forall k
      ensures AlignedAt(from, to, k) <==> WellSaid(Says(patch, k))
      ensures AlignedAt(from, to, k) ==>
        MeaningOf(Lookup(patch, k)) == StepOf(Lookup(from.members, k), Lookup(to.members, k))
    {
      GeneratedSays(fs, ts, k);
      SaysLookup(patch, k);
      MemberMeaning(from, to, k);
    }
  }

  lemma SortedDistinct(t: Json)
    requires t.Object? && WellNamed(t)
    ensures Distinct(SortMembers(t.members), Folded)
  {
    SortFacts(t.members);
  }

  lemma {:induction false} MemberMeaning(from: Json, to: Json, k: CString)
    requires WellNamed(from) && WellNamed(to) && from.Object? && to.Object?
    ensures var fs, ts := SortMembers(from.members), SortMembers(to.members);
      var told := Told(FateOf(fs, ts, k), Lookup(fs, k), Lookup(ts, k));
      && (AlignedAt(from, to, k) <==> WellSaid(told))
      && (AlignedAt(from, to, k) ==>
          var said := if told == [] then None else Some(told[0]);
          MeaningOf(said) == StepOf(Lookup(from.members, k), Lookup(to.members, k)))
    decreases Depth(from), 0, 0
  {
    hide FateOf, MergeBetween, MemberPatch;
    FatedFacts(from, to, k);
    var f, t := Lookup(from.members, k), Lookup(to.members, k);
    if Fated(from, to, k).Met? {
      MetMeaning(f.value, t.value);
    }
  }

  lemma {:induction false} MetMeaning(f: Json, t: Json)
    requires WellNamed(f) && WellNamed(t)
    ensures var p := MemberPatch(f, t);
      && (Equivalent(f, t) || Aligned(f, t) <==> p.None? || WellNamed(p.value))
      && (Equivalent(f, t) || Aligned(f, t) ==> MeaningOf(p) == StepOf(Some(f), Some(t)))
    decreases Depth(f), 2
  {
    hide MergeBetween, GenerateMergePatch, Aligned, WellNamed;
    var r := ComparedFacts(f, t);
    if r.code != 0 {
      GenerateMeaning(r.a, r.b);
      ReorderedRestores(f, t, r.a, r.b);
    }
  }

  // ----- aligned trees: a condition on the values alone

  /** Between aligned trees merging restores `to` exactly when it has no null member that `from` lacks. */
  lemma {:induction false} AlignedRestores(from: Json, to: Json)
    requires WellNamed(from) && WellNamed(to) && Aligned(from, to)
    ensures Restores(from, to) <==> NoNewNull(Meaning(from, IgnoreCase), Meaning(to, IgnoreCase))
    decreases Depth(from)
  {
    if from.Object? && to.Object? {
      var f, t := Meaning(from, IgnoreCase), Meaning(to, IgnoreCase);
      forall k ensures RestoredAt(from, to, k) <==> FieldRestored(f, t, k) {
        AlignedRestored(from, to, k);
      }
    }
  }

  lemma {:induction false} AlignedRestored(from: Json, to: Json, k: CString)
    requires WellNamed(from) && WellNamed(to) && from.Object? && to.Object? && AlignedAt(from, to, k)
    ensures RestoredAt(from, to, k) <==> FieldRestored(Meaning(from, IgnoreCase), Meaning(to, IgnoreCase), k)
    decreases Depth(from), 0
  {
    hide FateOf, NullFree;
    FatedFacts(from, to, k);
    LookupMeaning(from.members, k);
    LookupMeaning(to.members, k);
    if Fated(from, to, k).Met? {
      var f, t := Lookup(from.members, k).value, Lookup(to.members, k).value;
      if !Equivalent(f, t) {
        AlignedRestores(f, t);
      }
    }
  }

  // ----- names without upper-case letters

  ghost predicate LowerKeys(v: Value) {
    match v
    case VArray(xs) => forall x | x in xs :: LowerKeys(x)
    case VObject(f) => forall k | k in f :: !HasUpper(k) && LowerKeys(f[k])
    case _ => true
  }

  /** No name has an upper-case ASCII letter, so sorting and merging agree about the order. */
  ghost predicate LowerNamed(t: Json) {
    LowerKeys(Meaning(t, Exact))
  }

  ghost predicate LowerMembers(ms: seq<Member>) {
    AllWellNamed(ms) && forall m | m in ms :: !HasUpper(m.name) && LowerNamed(m.value)
  }

  lemma MembersLower(ms: seq<Member>)
    requires AllWellNamed(ms) && LowerNamed(Object(ms))
    ensures LowerMembers(ms)
  {
    forall m | m in ms ensures !HasUpper(m.name) && LowerNamed(m.value) {
      FieldOf(ms, m, Exact);
    }
  }

  lemma LowerCompare(a: Member, b: Member)
    requires !HasUpper(a.name) && !HasUpper(b.name)
    ensures Cmp(a.name, b.name) == Cmp(Folded(a), Folded(b)) == -Cmp(Folded(b), Folded(a))
  {
    LowerAllIdentity(a.name);
    LowerAllIdentity(b.name);
    CmpAntisymmetric(Folded(a), Folded(b));
  }

  ghost predicate LowerWalk(ms: seq<Member>) {
    Walkable(ms) && forall m | m in ms :: !HasUpper(m.name)
  }

  lemma LowerTail(ms: seq<Member>)
    requires LowerWalk(ms) && ms != []
    ensures LowerWalk(ms[1..]) && DroppedAt(ms, ms[1..], Folded(ms[0])) && !HasUpper(ms[0].name)
  {
    DropHead(ms);
    assert ms[0] in ms;
  }

  /** Sorting and merging agree about the order of such names. */
  lemma {:induction false} LowerFates(from: seq<Member>, to: seq<Member>, k: CString)
    requires LowerWalk(from) && LowerWalk(to)
    ensures FateOf(from, to, k) != Lost && FateOf(from, to, k) != Readded
    decreases |from| + |to|
  {
    hide Walkable, Lookup;
    if from != [] {
      LowerTail(from);
    }
    if to != [] {
      LowerTail(to);
    }
    if from != [] && to != [] {
      LowerCompare(from[0], to[0]);
    }
    if from == [] && to == [] {
    } else if HeadOrder(from, to) < 0 {
      LaterLookup(Folded(from[0]), to);
      LowerFates(from[1..], to, k);
    } else if HeadOrder(from, to) > 0 {
      LaterLookup(Folded(to[0]), from);
      LowerFates(from, to[1..], k);
    } else {
      LowerFates(from[1..], to[1..], k);
    }
  }

  lemma SortedLower(t: Json)
    requires t.Object? && WellNamed(t) && LowerNamed(t)
    ensures LowerWalk(SortMembers(t.members))
  {
    MembersLower(t.members);
    SortFacts(t.members);
  }

  /** Trees without upper-case names are aligned, so the condition for them is the one on values. */
  lemma {:induction false} LowerAligned(from: Json, to: Json)
    requires WellNamed(from) && WellNamed(to) && LowerNamed(from) && LowerNamed(to)
    ensures Aligned(from, to)
    decreases Depth(from)
  {
    hide LowerKeys;
    if from.Object? && to.Object? {
      SortedLower(from);
      SortedLower(to);
      forall k ensures AlignedAt(from, to, k) {
        LowerFates(SortMembers(from.members), SortMembers(to.members), k);
        FatedFacts(from, to, k);
        if Fated(from, to, k).Met? {
          LookupLower(from, k);
          LookupLower(to, k);
          LowerAligned(Lookup(from.members, k).value, Lookup(to.members, k).value);
        }
      }
    }
  }

  lemma LookupLower(t: Json, k: CString)
    requires t.Object? && WellNamed(t) && LowerNamed(t) && Lookup(t.members, k).Some?
    ensures LowerNamed(Lookup(t.members, k).value)
  {
    MembersLower(t.members);
    LookupFound(t.members, k);
  }

  /** For such trees the condition of the round trip is one on the values alone. */
  lemma LowerRoundTrip(doc: Json, from: Json, to: Json)
    requires WellNamed(doc) && WellNamed(from) && WellNamed(to) && Reordered(doc, from)
    requires LowerNamed(from) && LowerNamed(to)
    ensures var r := AfterMerge(doc, GenerateMergePatch(from, to));
      Compare(r, to).code == 0 <==> NoNewNull(Meaning(from, IgnoreCase), Meaning(to, IgnoreCase))
  {
    hide Compare, AfterMerge, GenerateMergePatch, Restores, WellNamed, LowerNamed, NoNewNull;
    LowerAligned(from, to);
    AlignedRestores(from, to);
    MergeGivesWanted(doc, from, to);
    CompareDecides(AfterMerge(doc, GenerateMergePatch(from, to)), to);
  }

  // ----- names with upper-case letters

  const LOWER_MEMBER := Member([97], Number(1.0))
  const UPPER_MEMBER := Member([65], Number(2.0))

  lemma UpperCasePatch()
    ensures GenerateMembers([LOWER_MEMBER], [UPPER_MEMBER]) == [UPPER_MEMBER, Member([97], Null)]
  {
    var a, b := LOWER_MEMBER, UPPER_MEMBER;
    assert Cmp(a.name, b.name) == 32;
    GenerateStep([], [a], [b], 0, 0);
    GenerateStep([], [a], [], 0, 0);
    assert [a][0..] == [a] && [b][0..] == [b] && [a][1..] == [] && [b][1..] == [];
  }

  lemma UpperCaseMerge()
    ensures MergeMembers([LOWER_MEMBER], [UPPER_MEMBER, Member([97], Null)]) == []
  {
    var a, b, n := LOWER_MEMBER, UPPER_MEMBER, Member([97], Null);
    var patch := [b, n];
    assert patch[1..] == [n] && patch[1..][1..] == [];
    assert LowerAll([97]) == [97] && LowerAll([65]) == [97];
    assert FindName([a], [65]) == 0 && Without([a], [65]) == [];
    assert FindName([b], [97]) == 0 && Without([b], [97]) == [];
    assert MergeMember([a], b) == [b] && MergeMember([b], n) == [];
    assert MergeMembers([b], [n]) == MergeMembers([], [n][1..]);
  }

  /** With an upper-case letter sorting and merging disagree: from `{"a": 1}` to `{"A": 2}` the member is lost. */
  lemma UpperCaseLosesMember()
    ensures var from, to := Object([LOWER_MEMBER]), Object([UPPER_MEMBER]);
      && GenerateMergePatch(from, to).Some?
      && MergePatch(Some(from), GenerateMergePatch(from, to).value) == Object([])
  {
    UpperCasePatch();
    UpperCaseMerge();
  }
}
