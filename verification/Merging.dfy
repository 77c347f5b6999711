/** `cJSONUtils_MergePatch` and `cJSONUtils_GenerateMergePatch` on trees. */
module Merging {
  import opened Bytes
  import opened Members
  import opened MergeValues
  import opened Options
  import opened Sequences
  import opened Sorting
  import opened Trees

  /** The target's members; a target that is no object is replaced by an empty one. */
  function Base(target: Option<Json>): seq<Member> {
    if target.Some? && target.value.Object? then target.value.members else []
  }

  function Detached(ms: seq<Member>, name: CString): Option<Json> {
    var i := FindName(ms, name);
    if i < |ms| then Some(ms[i].value) else None
  }

  /** `cJSONUtils_MergePatch` for a patch that is not NULL. */
  function MergePatch(target: Option<Json>, patch: Json): Json
    decreases patch
  {
    if !patch.Object? then patch else Object(MergeMembers(Base(target), patch.members))
  }

  /** The loop over the patch: a null deletes, anything else replaces the member and moves it to the end. */
  function MergeMembers(ms: seq<Member>, patch: seq<Member>): seq<Member>
    decreases patch
  {
    if patch == [] then ms else MergeMembers(MergeMember(ms, patch[0]), patch[1..])
  }

  function MergeMember(ms: seq<Member>, p: Member): seq<Member>
    decreases p
  {
    if p.value.Null? then Without(ms, p.name)
    else Without(ms, p.name) + [Member(p.name, MergePatch(Detached(ms, p.name), p.value))]
  }

  // ----- merging computes the function of RFC 7396

  /** What the merged members hold under a name. */
  function Merged(was: Option<Json>, p: Option<Json>): Option<Json> {
    match p
    case None => was
    case Some(v) => if v.Null? then None else Some(MergePatch(was, v))
  }

  lemma MergeMemberLookup(ms: seq<Member>, p: Member)
    requires AllWellNamed(ms) && WellNamed(MergePatch(Detached(ms, p.name), p.value))
    ensures AllWellNamed(MergeMember(ms, p)) && Detached(ms, p.name) == Lookup(ms, Folded(p))
    ensures forall k ::
      Lookup(MergeMember(ms, p), k) == Merged(Lookup(ms, k), if k == Folded(p) then Some(p.value) else None)
  {
    hide MergePatch;
    var rest := Without(ms, p.name);
    var m := Member(p.name, MergePatch(Detached(ms, p.name), p.value));
    RemoveDistinct(ms, FindName(ms, p.name));
    FindNameLookup(ms, p.name);
    WithoutLookup(ms, p.name, Folded(p));
    AppendDistinct(rest, m);
    forall k ensures Lookup(MergeMember(ms, p), k) ==
      Merged(Lookup(ms, k), if k == Folded(p) then Some(p.value) else None)
    {
      WithoutLookup(ms, p.name, k);
      AppendLookup(rest, m, k);
    }
  }

  lemma {:induction false} MergeWellNamed(target: Option<Json>, patch: Json)
    requires WellNamed(patch) && (target.Some? ==> WellNamed(target.value))
    ensures WellNamed(MergePatch(target, patch))
    decreases patch, 1
  {
    if patch.Object? {
      MergeMembersLookup(Base(target), patch.members);
    }
  }

  /** Every name of the merged object holds what the patch says about it. */
  lemma {:induction false} MergeMembersLookup(ms: seq<Member>, patch: seq<Member>)
    requires AllWellNamed(ms) && AllWellNamed(patch)
    ensures AllWellNamed(MergeMembers(ms, patch))
    ensures forall k :: Lookup(MergeMembers(ms, patch), k) == Merged(Lookup(ms, k), Lookup(patch, k))
    decreases patch, 0
  {
    hide MergePatch, MergeMember;
    if patch != [] {
      var p, k0 := patch[0], Folded(patch[0]);
      assert p in patch && AllWellNamed(patch[1..]);
      FindNameLookup(ms, p.name);
      LookupFound(ms, k0);
      MergeWellNamed(Detached(ms, p.name), p.value);
      MergeMemberLookup(ms, p);
      var ms' := MergeMember(ms, p);
      MergeMembersLookup(ms', patch[1..]);
      HeadOnce(patch);
      forall k ensures Lookup(MergeMembers(ms, patch), k) == Merged(Lookup(ms, k), Lookup(patch, k)) {
        assert Lookup(MergeMembers(ms', patch[1..]), k) == Merged(Lookup(ms', k), Lookup(patch[1..], k));
      }
    }
  }

  lemma HeadOnce(ms: seq<Member>)
    requires ms != [] && Distinct(ms, Folded)
    ensures Lookup(ms[1..], Folded(ms[0])).None?
  {
    LookupFound(ms[1..], Folded(ms[0]));
    assert forall m | m in ms[1..] :: Folded(m) != Folded(ms[0]);
  }

  function MeaningOf(t: Option<Json>): Option<Value> {
    match t
    case None => None
    case Some(v) => Some(Meaning(v, IgnoreCase))
  }

  /** `cJSONUtils_MergePatch` is the function of RFC 7396 section 2, names taken without their case. */
  lemma {:induction false} MergeIsRfc7396(target: Option<Json>, patch: Json)
    requires WellNamed(patch) && (target.Some? ==> WellNamed(target.value))
    ensures Meaning(MergePatch(target, patch), IgnoreCase) == MergeValue(MeaningOf(target), Meaning(patch, IgnoreCase))
    decreases patch
  {
    if patch.Object? {
      var ms, ps := Base(target), patch.members;
      MergeMembersLookup(ms, ps);
      var r := FieldsMeaning(MergeMembers(ms, ps), IgnoreCase);
      var s := MergeValue(MeaningOf(target), Meaning(patch, IgnoreCase)).fields;
      forall k ensures Find(r, k) == Find(s, k) {
        LookupMeaning(MergeMembers(ms, ps), k);
        LookupMeaning(ms, k);
        LookupMeaning(ps, k);
        var p, was := Lookup(ps, k), Lookup(ms, k);
        if p.Some? && !p.value.Null? {
          LookupFound(ps, k);
          LookupFound(ms, k);
          var m :| m in ps && Folded(m) == k && m.value == p.value;
          MergeIsRfc7396(was, p.value);
        }
      }
      SameFields(r, s);
    }
  }

  // ----- merging twice

  /** The target's members that the patch does not name, in their order. */
  function Kept(ms: seq<Member>, patch: seq<Member>): seq<Member> {
    if ms == [] then []
    else (if Lookup(patch, Folded(ms[0])).None? then [ms[0]] else []) + Kept(ms[1..], patch)
  }

  /** The members that the patch puts in, in the patch's order. */
  function Put(ms: seq<Member>, patch: seq<Member>): seq<Member> {
    if patch == [] then []
    else
      var p := patch[0];
      (if p.value.Null? then [] else [Member(p.name, MergePatch(Lookup(ms, Folded(p)), p.value))]) + Put(ms, patch[1..])
  }

  lemma {:induction false} KeptConcat(a: seq<Member>, b: seq<Member>, patch: seq<Member>)
    ensures Kept(a + b, patch) == Kept(a, patch) + Kept(b, patch)
  {
    hide Lookup;
    if a == [] {
      assert a + b == b;
    } else {
      KeptConcat(a[1..], b, patch);
      assert (a + b)[1..] == a[1..] + b;
      Associative(if Lookup(patch, Folded(a[0])).None? then [a[0]] else [], Kept(a[1..], patch), Kept(b, patch));
    }
  }

  lemma {:induction false} KeptDrops(ms: seq<Member>, p: Member, patch: seq<Member>)
    requires forall m | m in ms :: Folded(m) != Folded(p)
    ensures Kept(ms, [p] + patch) == Kept(ms, patch)
  {
    if ms != [] {
      assert ms[0] in ms && forall m | m in ms[1..] :: m in ms;
      KeptDrops(ms[1..], p, patch);
      assert ([p] + patch)[1..] == patch;
    }
  }

  lemma KeptWithout(ms: seq<Member>, p: Member, patch: seq<Member>)
    requires Distinct(ms, Folded)
    ensures Kept(ms, [p] + patch) == Kept(Without(ms, p.name), patch)
  {
    var i := FindName(ms, p.name);
    if i < |ms| {
      KeptAround(ms[..i], ms[i], ms[i + 1..], p, patch);
      assert ms == ms[..i] + ([ms[i]] + ms[i + 1..]);
    } else {
      KeptDrops(ms, p, patch);
    }
  }

  lemma KeptAround(a: seq<Member>, m: Member, b: seq<Member>, p: Member, patch: seq<Member>)
    requires Folded(m) == Folded(p) && forall x | x in a || x in b :: Folded(x) != Folded(p)
    ensures Kept(a + ([m] + b), [p] + patch) == Kept(a + b, patch)
  {
    hide Kept;
    KeptConcat(a, [m] + b, [p] + patch);
    KeptConcat([m], b, [p] + patch);
    KeptConcat(a, b, patch);
    KeptDrops(a, p, patch);
    KeptDrops(b, p, patch);
    KeptOne(m, [p] + patch);
    assert [] + Kept(b, patch) == Kept(b, patch);
  }

  lemma {:induction false} PutSame(ms: seq<Member>, ms': seq<Member>, patch: seq<Member>)
    requires forall p | p in patch :: Lookup(ms, Folded(p)) == Lookup(ms', Folded(p))
    ensures Put(ms, patch) == Put(ms', patch)
  {
    if patch != [] {
      assert patch[0] in patch && forall p | p in patch[1..] :: p in patch;
      PutSame(ms, ms', patch[1..]);
    }
  }

  lemma KeptOne(m: Member, patch: seq<Member>)
    ensures Kept([m], patch) == if Lookup(patch, Folded(m)).None? then [m] else []
  {
    assert [m][1..] == [];
  }

  lemma KeptMerged(ms: seq<Member>, p: Member, rest: seq<Member>)
    requires Distinct(ms, Folded) && Lookup(rest, Folded(p)).None? && Detached(ms, p.name) == Lookup(ms, Folded(p))
    ensures Kept(MergeMember(ms, p), rest) ==
      Kept(ms, [p] + rest) + if p.value.Null? then [] else [Member(p.name, MergePatch(Lookup(ms, Folded(p)), p.value))]
  {
    hide MergePatch;
    KeptWithout(ms, p, rest);
    if !p.value.Null? {
      var m := Member(p.name, MergePatch(Lookup(ms, Folded(p)), p.value));
      KeptConcat(Without(ms, p.name), [m], rest);
      KeptOne(m, rest);
    }
  }

  lemma PutMerged(ms: seq<Member>, ms': seq<Member>, p: Member, rest: seq<Member>)
    requires Lookup(rest, Folded(p)).None?
    requires forall k :: k != Folded(p) ==> Lookup(ms', k) == Lookup(ms, k)
    ensures Put(ms, [p] + rest) ==
      (if p.value.Null? then [] else [Member(p.name, MergePatch(Lookup(ms, Folded(p)), p.value))]) + Put(ms', rest)
  {
    hide MergePatch;
    LookupFound(rest, Folded(p));
    assert forall q | q in rest :: Folded(q) != Folded(p);
    PutSame(ms, ms', rest);
    assert ([p] + rest)[1..] == rest;
  }

  /** Merging keeps the members that the patch does not name and puts the others after them, in patch order. */
  lemma {:induction false} MergeShape(ms: seq<Member>, patch: seq<Member>)
    requires AllWellNamed(ms) && AllWellNamed(patch)
    ensures MergeMembers(ms, patch) == Kept(ms, patch) + Put(ms, patch)
    decreases |patch|
  {
    hide MergePatch, MergeMember, Kept, Put;
    KeptAll(ms);
    if patch != [] {
      var p, rest := patch[0], patch[1..];
      var ms' := MergeMember(ms, p);
      assert patch == [p] + rest && p in patch && AllWellNamed(rest);
      FindNameLookup(ms, p.name);
      LookupFound(ms, Folded(p));
      MergeWellNamed(Detached(ms, p.name), p.value);
      MergeMemberLookup(ms, p);
      MergeShape(ms', rest);
      HeadOnce(patch);
      KeptMerged(ms, p, rest);
      PutMerged(ms, ms', p, rest);
      Associative(Kept(ms, patch),
                  if p.value.Null? then [] else [Member(p.name, MergePatch(Lookup(ms, Folded(p)), p.value))],
                  Put(ms', rest));
    } else {
      assert ms + [] == ms;
    }
  }

  lemma {:induction false} KeptAll(ms: seq<Member>)
    ensures Kept(ms, []) == ms && Put(ms, []) == []
  {
    if ms != [] {
      KeptAll(ms[1..]);
      assert ms == [ms[0]] + ms[1..];
    }
  }

  lemma {:induction false} KeptTwice(ms: seq<Member>, patch: seq<Member>)
    ensures Kept(Kept(ms, patch), patch) == Kept(ms, patch)
  {
    if ms != [] {
      KeptTwice(ms[1..], patch);
      var front := if Lookup(patch, Folded(ms[0])).None? then [ms[0]] else [];
      KeptConcat(front, Kept(ms[1..], patch), patch);
      KeptOne(ms[0], patch);
    }
  }

  lemma {:induction false} KeptNone(ms: seq<Member>, patch: seq<Member>)
    requires forall m | m in ms :: Lookup(patch, Folded(m)).Some?
    ensures Kept(ms, patch) == []
  {
    if ms != [] {
      assert ms[0] in ms && forall m | m in ms[1..] :: m in ms;
      KeptNone(ms[1..], patch);
    }
  }

  lemma {:induction false} PutNamed(ms: seq<Member>, all: seq<Member>, patch: seq<Member>)
    requires forall p | p in patch :: Lookup(all, Folded(p)).Some?
    ensures forall m | m in Put(ms, patch) :: Lookup(all, Folded(m)).Some?
  {
    if patch != [] {
      assert patch[0] in patch && forall p | p in patch[1..] :: p in patch;
      PutNamed(ms, all, patch[1..]);
    }
  }

  lemma KeptOfShape(ms: seq<Member>, ps: seq<Member>)
    requires Distinct(ps, Folded)
    ensures Kept(Kept(ms, ps) + Put(ms, ps), ps) == Kept(ms, ps)
  {
    hide MergePatch;
    forall p | p in ps ensures Lookup(ps, Folded(p)).Some? {
      LookupFound(ps, Folded(p));
    }
    PutNamed(ms, ps, ps);
    KeptConcat(Kept(ms, ps), Put(ms, ps), ps);
    KeptTwice(ms, ps);
    KeptNone(Put(ms, ps), ps);
  }

  /** Applying a patch twice gives the same tree, member order included, as applying it once. */
  lemma {:induction false} MergeIdempotent(target: Option<Json>, patch: Json)
    requires WellNamed(patch) && (target.Some? ==> WellNamed(target.value))
    ensures MergePatch(Some(MergePatch(target, patch)), patch) == MergePatch(target, patch)
    decreases patch, 1
  {
    if patch.Object? {
      MergeMembersIdempotent(Base(target), patch.members);
    }
  }

  lemma {:induction false} MergeMembersIdempotent(ms: seq<Member>, ps: seq<Member>)
    requires AllWellNamed(ms) && AllWellNamed(ps)
    ensures MergeMembers(MergeMembers(ms, ps), ps) == MergeMembers(ms, ps)
    decreases ps, 1
  {
    hide MergePatch, Kept, Put;
    var r := MergeMembers(ms, ps);
    MergeMembersLookup(ms, ps);
    MergeShape(ms, ps);
    MergeShape(r, ps);
    KeptOfShape(ms, ps);
    forall p | p in ps ensures Lookup(ps, Folded(p)) == Some(p.value) {
      var i :| 0 <= i < |ps| && ps[i] == p;
      LookupAt(ps, i);
    }
    PutTwice(ms, r, ps, ps);
  }

  lemma {:induction false} PutTwice(ms: seq<Member>, r: seq<Member>, all: seq<Member>, patch: seq<Member>)
    requires AllWellNamed(ms) && AllWellNamed(all) && forall p | p in patch :: p in all
    requires forall p | p in patch :: Lookup(r, Folded(p)) == Merged(Lookup(ms, Folded(p)), Some(p.value))
    ensures Put(r, patch) == Put(ms, patch)
    decreases patch, 0
  {
    if patch != [] {
      var p := patch[0];
      assert p in patch && forall q | q in patch[1..] :: q in patch;
      if !p.value.Null? {
        LookupFound(ms, Folded(p));
        MergeIdempotent(Lookup(ms, Folded(p)), p.value);
      }
      PutTwice(ms, r, all, patch[1..]);
    }
  }
}
