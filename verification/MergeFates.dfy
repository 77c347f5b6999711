/** What a generated merge patch says about each name, and what merging makes of it, for names in any case. */
module MergeFates {
  import opened Bytes
  import opened Comparing
  import opened Members
  import opened MergeGeneration
  import opened Merging
  import opened Options
  import opened Sorting
  import opened Trees

  // ----- what a patch says about a name

  /** The values that a patch gives to a name, in its order; a patch may name a member twice. */
  function Says(patch: seq<Member>, k: CString): seq<Json> {
    if patch == [] then [] else (if Folded(patch[0]) == k then [patch[0].value] else []) + Says(patch[1..], k)
  }

  lemma SaysHead(m: Member, rest: seq<Member>, k: CString)
    ensures Says([m] + rest, k) == (if Folded(m) == k then [m.value] else []) + Says(rest, k)
  {
    assert ([m] + rest)[1..] == rest;
  }

  lemma {:induction false} SaysLookup(patch: seq<Member>, k: CString)
    ensures Lookup(patch, k) == if Says(patch, k) == [] then None else Some(Says(patch, k)[0])
  {
    if patch != [] {
      SaysLookup(patch[1..], k);
    }
  }

  lemma {:induction false} SaysMember(patch: seq<Member>, m: Member)
    requires m in patch
    ensures m.value in Says(patch, Folded(m))
  {
    if patch[0] != m {
      SaysMember(patch[1..], m);
    }
  }

  lemma {:induction false} SaysFrom(patch: seq<Member>, k: CString, v: Json)
    requires v in Says(patch, k)
    ensures exists m :: m in patch && Folded(m) == k && m.value == v
  {
    if Folded(patch[0]) == k && patch[0].value == v {
      assert patch[0] in patch;
    } else {
      SaysFrom(patch[1..], k, v);
      var m :| m in patch[1..] && Folded(m) == k && m.value == v;
      assert m in patch;
    }
  }

  /** A patch names every member once exactly when it never says two things about a name. */
  lemma {:induction false} SaysDistinct(patch: seq<Member>)
    ensures Distinct(patch, Folded) <==> forall k :: |Says(patch, k)| <= 1
  {
    if patch != [] {
      var p, rest := patch[0], patch[1..];
      SaysDistinct(rest);
      SaysLookup(rest, Folded(p));
      LookupFound(rest, Folded(p));
      assert Distinct(patch, Folded) <==> Distinct(rest, Folded) && Lookup(rest, Folded(p)).None? by {
        if Distinct(rest, Folded) && Lookup(rest, Folded(p)).None? {
          assert forall m | m in rest :: Folded(m) != Folded(p);
        }
        if Distinct(patch, Folded) {
          assert forall m | m in rest :: Folded(m) != Folded(p);
        }
      }
      if Distinct(patch, Folded) {
        forall k ensures |Says(patch, k)| <= 1 {
          assert |Says(rest, k)| <= 1;
        }
      } else if Lookup(rest, Folded(p)).Some? {
        assert |Says(patch, Folded(p))| > 1;
      } else {
        var k :| |Says(rest, k)| > 1;
        assert |Says(patch, k)| > 1;
      }
    }
  }

  // ----- what merging makes of it

  /** The member after everything that a patch says about it. */
  function Effect(was: Option<Json>, says: seq<Json>): Option<Json>
    decreases |says|
  {
    if says == [] then was else Effect(Merged(was, Some(says[0])), says[1..])
  }

  /** Merging `p` into a well-named tree, or into none, gives a well-named tree. */
  ghost predicate Mergeable(p: Json) {
    forall target: Option<Json> | target.Some? ==> WellNamed(target.value) :: WellNamed(MergePatch(target, p))
  }

  ghost predicate AllMergeable(patch: seq<Member>) {
    forall m | m in patch :: Mergeable(m.value)
  }

  /** Every name of the merged object holds what all that the patch says about it leads to. */
  lemma {:induction false} MergeSays(ms: seq<Member>, patch: seq<Member>)
    requires AllWellNamed(ms) && AllMergeable(patch)
    ensures AllWellNamed(MergeMembers(ms, patch))
    ensures forall k :: Lookup(MergeMembers(ms, patch), k) == Effect(Lookup(ms, k), Says(patch, k))
    decreases |patch|
  {
    hide MergePatch, MergeMember;
    if patch != [] {
      var p, ms' := patch[0], MergeMember(ms, patch[0]);
      assert p in patch && AllMergeable(patch[1..]);
      FindNameLookup(ms, p.name);
      LookupFound(ms, Folded(p));
      MergeMemberLookup(ms, p);
      MergeSays(ms', patch[1..]);
      forall k ensures Lookup(MergeMembers(ms, patch), k) == Effect(Lookup(ms, k), Says(patch, k)) {
        assert Lookup(ms', k) == Merged(Lookup(ms, k), if k == Folded(p) then Some(p.value) else None);
        assert Lookup(MergeMembers(ms', patch[1..]), k) == Effect(Lookup(ms', k), Says(patch[1..], k));
        EffectHead(Lookup(ms, k), p.value, Says(patch[1..], k));
      }
    }
  }

  lemma EffectHead(was: Option<Json>, v: Json, says: seq<Json>)
    ensures Effect(was, [v] + says) == Effect(Merged(was, Some(v)), says)
    ensures Effect(was, [] + says) == Effect(was, says)
  {
    assert ([v] + says)[1..] == says && [] + says == says;
  }

  // ----- the walk over two sorted lists

  /**
   * What the walk over the members of two objects does at a name: it is in neither list, only in the first
   * (`Deleted`) or only in the second (`Added`), or in both: both lists reach it at once (`Met`), the first
   * list reaches it first, so that it is deleted and then added, or the second does, so that it is lost.
   */
  datatype Fate = Absent | Deleted | Added | Met | Readded | Lost

  function FateOf(from: seq<Member>, to: seq<Member>, k: CString): (fate: Fate)
    ensures Lookup(from, k).Some? <==> fate.Deleted? || fate.Met? || fate.Readded? || fate.Lost?
    ensures Lookup(to, k).Some? <==> fate.Added? || fate.Met? || fate.Readded? || fate.Lost?
    decreases |from| + |to|
  {
    if from == [] && to == [] then Absent
    else if HeadOrder(from, to) < 0 then
      if Folded(from[0]) != k then FateOf(from[1..], to, k) else if Lookup(to, k).Some? then Readded else Deleted
    else if HeadOrder(from, to) > 0 then
      if Folded(to[0]) != k then FateOf(from, to[1..], k) else if Lookup(from, k).Some? then Lost else Added
    else
      CmpZero(from[0].name, to[0].name);
      if Folded(from[0]) == k then Met else FateOf(from[1..], to[1..], k)
  }

  /** What the generated patch says about a name, by its fate and the values that both objects have for it. */
  function Told(fate: Fate, from: Option<Json>, to: Option<Json>): seq<Json>
    requires from.Some? <==> fate.Deleted? || fate.Met? || fate.Readded? || fate.Lost?
    requires to.Some? <==> fate.Added? || fate.Met? || fate.Readded? || fate.Lost?
  {
    match fate
    case Absent => []
    case Deleted => [Null]
    case Added => [to.value]
    case Readded => [Null, to.value]
    case Lost => [to.value, Null]
    case Met =>
      match MemberPatch(from.value, to.value)
      case None => []
      case Some(p) => [p]
  }

  lemma DistinctTail(ms: seq<Member>)
    requires ms != [] && Distinct(ms, Folded)
    ensures Distinct(ms[1..], Folded) && Lookup(ms[1..], Folded(ms[0])).None?
  {
    HeadOnce(ms);
  }

  lemma {:induction false} GeneratedSays(from: seq<Member>, to: seq<Member>, k: CString)
    requires Distinct(from, Folded) && Distinct(to, Folded)
    ensures Says(GenerateMembers(from, to), k) == Told(FateOf(from, to, k), Lookup(from, k), Lookup(to, k))
    decreases |from| + |to|
  {
    hide MemberPatch, Says, Distinct;
    if from != [] {
      DistinctTail(from);
    }
    if to != [] {
      DistinctTail(to);
    }
    if from == [] && to == [] {
      SaysNothing(k);
    } else if HeadOrder(from, to) < 0 {
      GeneratedSays(from[1..], to, k);
      SaysHead(Member(from[0].name, Null), GenerateMembers(from[1..], to), k);
    } else if HeadOrder(from, to) > 0 {
      GeneratedSays(from, to[1..], k);
      SaysHead(to[0], GenerateMembers(from, to[1..]), k);
    } else {
      CmpZero(from[0].name, to[0].name);
      GeneratedSays(from[1..], to[1..], k);
      MemberSays(from[0].value, to[0], GenerateMembers(from[1..], to[1..]), k);
    }
  }

  lemma SaysNothing(k: CString)
    ensures Says([], k) == []
  {}

  lemma MemberSays(from: Json, to: Member, rest: seq<Member>, k: CString)
    ensures Says(GenerateMember(from, to) + rest, k) ==
      (if Folded(to) == k then Told(Met, Some(from), Some(to.value)) else []) + Says(rest, k)
  {
    hide MemberPatch, Says;
    match MemberPatch(from, to.value)
    case None => assert [] + rest == rest && [] + Says(rest, k) == Says(rest, k);
    case Some(p) => SaysHead(Member(to.name, p), rest, k);
  }

  // ----- generated patches can be merged

  lemma {:induction false} PatchMergeable(from: Json, to: Json)
    requires WellNamed(from) && WellNamed(to)
    ensures GenerateMergePatch(from, to).Some? ==> Mergeable(GenerateMergePatch(from, to).value)
    decreases Depth(from), 0
  {
    hide Mergeable;
    if from.Object? && to.Object? {
      var fs, ts := SortMembers(from.members), SortMembers(to.members);
      SortFacts(from.members);
      SortFacts(to.members);
      MembersMergeable(fs, ts);
      ObjectMergeable(GenerateMembers(fs, ts));
    } else {
      NamedMergeable(to);
    }
  }

  lemma NamedMergeable(p: Json)
    requires WellNamed(p)
    ensures Mergeable(p)
  {
    hide MergePatch;
    forall target: Option<Json> | target.Some? ==> WellNamed(target.value)
      ensures WellNamed(MergePatch(target, p))
    {
      MergeWellNamed(target, p);
    }
  }

  lemma ObjectMergeable(patch: seq<Member>)
    requires AllMergeable(patch)
    ensures Mergeable(Object(patch))
  {
    hide AllMergeable;
    forall target: Option<Json> | target.Some? ==> WellNamed(target.value)
      ensures WellNamed(MergePatch(target, Object(patch)))
    {
      MergeSays(Base(target), patch);
    }
  }

  lemma {:induction false} MembersMergeable(from: seq<Member>, to: seq<Member>)
    requires (forall m | m in from :: WellNamed(m.value)) && (forall m | m in to :: WellNamed(m.value))
    ensures AllMergeable(GenerateMembers(from, to))
    decreases MembersDepth(from), |from| + |to|, 2
  {
    hide Mergeable, MemberPatch;
    if from != [] || to != [] {
      assert from != [] ==> from[0] in from;
      assert to != [] ==> to[0] in to;
      if HeadOrder(from, to) < 0 {
        NamedMergeable(Null);
        MembersMergeable(from[1..], to);
      } else if HeadOrder(from, to) > 0 {
        NamedMergeable(to[0].value);
        MembersMergeable(from, to[1..]);
      } else {
        MemberMergeable(from[0].value, to[0].value);
        MembersMergeable(from[1..], to[1..]);
      }
    }
  }

  lemma {:induction false} MemberMergeable(from: Json, to: Json)
    requires WellNamed(from) && WellNamed(to)
    ensures MemberPatch(from, to).Some? ==> Mergeable(MemberPatch(from, to).value)
    decreases Depth(from), 1
  {
    hide Mergeable;
    CompareReorders(from, to);
    CompareDepth(from, to);
    PatchMergeable(Compare(from, to).a, Compare(from, to).b);
  }

  // ----- the order of the members does not matter

  lemma NameAt(ms: seq<Member>, k: CString) returns (i: nat)
    requires k in FieldsMeaning(ms, Exact)
    ensures i < |ms| && ms[i].name == k
  {
    FieldNames(ms, Exact);
    var m :| m in ms && Label(m.name, Exact) == k;
    i :| 0 <= i < |ms| && ms[i] == m;
  }

  /** Sorted lists with the same names, in any order of the objects they come from, have them in one order. */
  lemma {:induction false} SortedNames(xs: seq<Member>, ys: seq<Member>)
    requires StrictlySorted(xs, Folded) && StrictlySorted(ys, Folded)
    requires FieldsMeaning(xs, Exact).Keys == FieldsMeaning(ys, Exact).Keys
    ensures SameNames(xs, ys)
    decreases |xs|
  {
    if xs == [] {
      if ys != [] {
        SameHead(ys, xs);
      }
    } else {
      var k := xs[0].name;
      assert k in FieldsMeaning(xs, Exact).Keys;
      SameHead(xs, ys);
      TailKeys(xs);
      TailKeys(ys);
      StrictTail(xs);
      StrictTail(ys);
      SortedNames(xs[1..], ys[1..]);
      forall i | 0 <= i < |xs| ensures xs[i].name == ys[i].name {
        assert i > 0 ==> xs[i] == xs[1..][i - 1] && ys[i] == ys[1..][i - 1];
      }
    }
  }

  lemma HeadFirst(ms: seq<Member>, i: nat)
    requires StrictlySorted(ms, Folded) && i < |ms|
    ensures i > 0 ==> Less(Folded(ms[0]), Folded(ms[i]))
  {
    assert i > 0 ==> KeyLess(ms[0], ms[i], Folded);
  }

  lemma SameHead(xs: seq<Member>, ys: seq<Member>)
    requires StrictlySorted(xs, Folded) && StrictlySorted(ys, Folded) && xs != []
    requires FieldsMeaning(xs, Exact).Keys == FieldsMeaning(ys, Exact).Keys
    ensures ys != [] && xs[0].name == ys[0].name
  {
    hide StrictlySorted;
    assert xs[0].name in FieldsMeaning(xs, Exact).Keys;
    var j := NameAt(ys, xs[0].name);
    assert ys[0].name in FieldsMeaning(ys, Exact).Keys;
    var i := NameAt(xs, ys[0].name);
    HeadFirst(xs, i);
    HeadFirst(ys, j);
    CmpAntisymmetric(Folded(xs[0]), Folded(ys[0]));
  }

  lemma TailKeys(ms: seq<Member>)
    requires ms != [] && StrictlySorted(ms, Folded)
    ensures FieldsMeaning(ms[1..], Exact).Keys == FieldsMeaning(ms, Exact).Keys - {ms[0].name}
  {
    StrictTail(ms);
    FieldNames(ms[1..], Exact);
    FieldNames(ms[1..], IgnoreCase);
    assert forall m | m in ms[1..] :: Label(m.name, IgnoreCase) != Folded(ms[0]);
  }

  lemma {:induction false} SameLookups(xs: seq<Member>, ys: seq<Member>, k: CString)
    requires SameNames(xs, ys)
    ensures Lookup(xs, k).Some? <==> Lookup(ys, k).Some?
  {
    if xs != [] {
      SameTails(xs, ys);
      SameLookups(xs[1..], ys[1..], k);
    }
  }

  lemma SameTails(xs: seq<Member>, ys: seq<Member>)
    requires SameNames(xs, ys) && xs != []
    ensures SameNames(xs[1..], ys[1..]) && xs[0].name == ys[0].name
  {}

  /** The walk sees names only. */
  lemma {:induction false} SameFates(from: seq<Member>, to: seq<Member>, from': seq<Member>, to': seq<Member>,
                                     k: CString)
    requires SameNames(from, from') && SameNames(to, to')
    ensures FateOf(from, to, k) == FateOf(from', to', k)
    decreases |from| + |to|
  {
    SameLookups(from, from', k);
    SameLookups(to, to', k);
    if from != [] {
      SameTails(from, from');
    }
    if to != [] {
      SameTails(to, to');
    }
    if from == [] && to == [] {
    } else if HeadOrder(from, to) < 0 {
      SameFates(from[1..], to, from'[1..], to', k);
    } else if HeadOrder(from, to) > 0 {
      SameFates(from, to[1..], from', to'[1..], k);
    } else {
      SameFates(from[1..], to[1..], from'[1..], to'[1..], k);
    }
  }
}
