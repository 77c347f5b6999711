/** `cJSONUtils_GenerateMergePatch`: the patch that leads from one tree to another. */
module MergeGeneration {
  import opened Bytes
  import opened Comparing
  import opened Members
  import opened Merging
  import opened Options
  import opened Sequences
  import opened Trees

  // ----- comparing keeps the depth, so generation terminates on the trees that it leaves

  lemma {:induction false} CompareDepth(a: Json, b: Json)
    ensures Depth(Compare(a, b).a) == Depth(a)
    decreases Depth(a), 0
  {
    if SameType(a, b) {
      match a
      case Array(xs) => CompareItemsDepth(xs, b.items);
      case Object(ms) =>
        SortFacts(ms);
        CompareFieldsDepth(SortMembers(ms), SortMembers(b.members));
      case _ =>
    }
  }

  lemma {:induction false} CompareItemsDepth(xs: seq<Json>, ys: seq<Json>)
    ensures ItemsDepth(CompareItems(xs, ys).a) == ItemsDepth(xs)
    decreases ItemsDepth(xs), |xs|
  {
    if xs != [] && ys != [] {
      CompareDepth(xs[0], ys[0]);
      CompareItemsDepth(xs[1..], ys[1..]);
      var h := Compare(xs[0], ys[0]);
      assert ([h.a] + xs[1..])[1..] == xs[1..];
      assert ([h.a] + CompareItems(xs[1..], ys[1..]).a)[1..] == CompareItems(xs[1..], ys[1..]).a;
    }
  }

  lemma {:induction false} CompareFieldsDepth(xs: seq<Member>, ys: seq<Member>)
    ensures MembersDepth(CompareFields(xs, ys).a) == MembersDepth(xs)
    decreases MembersDepth(xs), |xs|
  {
    if xs != [] && ys != [] && CaseCmp(xs[0].name, ys[0].name) == 0 {
      CompareDepth(xs[0].value, ys[0].value);
      CompareFieldsDepth(xs[1..], ys[1..]);
      var x := xs[0].(value := Compare(xs[0].value, ys[0].value).a);
      assert ([x] + xs[1..])[1..] == xs[1..];
      assert ([x] + CompareFields(xs[1..], ys[1..]).a)[1..] == CompareFields(xs[1..], ys[1..]).a;
    }
  }

  // ----- generation

  /**
   * `cJSONUtils_GenerateMergePatch` for trees that are not NULL. Members are sorted ignoring case but merged
   * with `strcmp`; comparing two members sorts what is below them before the patch between them is made.
   */
  function GenerateMergePatch(from: Json, to: Json): Option<Json>
    decreases Depth(from), 0
  {
    if !to.Object? || !from.Object? then Some(to)
    else
      SortFacts(from.members);
      var patch := GenerateMembers(SortMembers(from.members), SortMembers(to.members));
      if patch == [] then None else Some(Object(patch))
  }

  /** The order of the first names as `strcmp` sees it; a list that has ended comes last. */
  function HeadOrder(from: seq<Member>, to: seq<Member>): int {
    if from == [] then 1 else if to == [] then -1 else Cmp(from[0].name, to[0].name)
  }

  function GenerateMembers(from: seq<Member>, to: seq<Member>): seq<Member>
    decreases MembersDepth(from), |from| + |to|
  {
    if from == [] && to == [] then []
    else if HeadOrder(from, to) < 0 then [Member(from[0].name, Null)] + GenerateMembers(from[1..], to)
    else if HeadOrder(from, to) > 0 then [to[0]] + GenerateMembers(from, to[1..])
    else GenerateMember(from[0].value, to[0]) + GenerateMembers(from[1..], to[1..])
  }

  function GenerateMember(from: Json, to: Member): seq<Member>
    decreases Depth(from), 1, 1
  {
    match MemberPatch(from, to.value)
    case None => []
    case Some(p) => [Member(to.name, p)]
  }

  /** The patch for a member that both have: none when the values compare equal. */
  function MemberPatch(from: Json, to: Json): Option<Json>
    decreases Depth(from), 1, 0
  {
    CompareDepth(from, to);
    var r := Compare(from, to);
    if r.code == 0 then None else GenerateMergePatch(r.a, r.b)
  }

  // ----- the loops of the code

  /** `cJSONUtils_MergePatch`: walks the patch, changing the target's member list. A NULL patch gives NULL. */
  method ApplyMergePatch(target: Option<Json>, patch: Option<Json>) returns (r: Option<Json>)
    ensures r == if patch.None? then None else Some(MergePatch(target, patch.value))
    decreases if patch.Some? then patch.value else Null
  {
    if patch.None? || !patch.value.Object? {
      return patch;
    }
    var ms, ps, i := Base(target), patch.value.members, 0;
    assert ps[0..] == ps;
    while i < |ps|
      invariant i <= |ps| && MergeMembers(Base(target), ps) == MergeMembers(ms, ps[i..])
    {
      assert ps[i..][1..] == ps[i + 1..];
      var p := ps[i];
      if p.value.Null? {
        ms := Without(ms, p.name);
      } else {
        var merged := ApplyMergePatch(Detached(ms, p.name), Some(p.value));
        ms := Without(ms, p.name) + [Member(p.name, merged.value)];
      }
      i := i + 1;
    }
    return Some(Object(ms));
  }

  /** `cJSONUtils_GenerateMergePatch`: a missing `to` gives a null patch. */
  method Generate(from: Option<Json>, to: Option<Json>) returns (r: Option<Json>)
    ensures r == if to.None? then Some(Null) else if from.None? then to else GenerateMergePatch(from.value, to.value)
    decreases if from.Some? then Depth(from.value) else 0, 0
  {
    hide GenerateMember, Compare;
    if to.None? {
      return Some(Null);
    }
    if from.None? || !to.value.Object? || !from.value.Object? {
      return to;
    }
    SortFacts(from.value.members);
    var fs, ts := SortMembers(from.value.members), SortMembers(to.value.members);
    var a, b, patch := 0, 0, [];
    assert fs[0..] == fs && ts[0..] == ts && [] + GenerateMembers(fs, ts) == GenerateMembers(fs, ts);
    while a < |fs| || b < |ts|
      invariant a <= |fs| && b <= |ts|
      invariant GenerateMembers(fs, ts) == patch + GenerateMembers(fs[a..], ts[b..])
      decreases |fs| - a + |ts| - b
    {
      var compare := if a < |fs| then if b < |ts| then Cmp(fs[a].name, ts[b].name) else -1 else 1;
      GenerateStep(patch, fs, ts, a, b);
      if compare < 0 {
        patch, a := patch + [Member(fs[a].name, Null)], a + 1;
      } else if compare > 0 {
        patch, b := patch + [ts[b]], b + 1;
      } else {
        FieldDepths(fs, a);
        var more := GenerateOne(fs[a].value, ts[b]);
        patch := patch + more;
        a, b := a + 1, b + 1;
      }
    }
    assert patch + [] == patch;
    return if patch == [] then None else Some(Object(patch));
  }

  method GenerateOne(from: Json, to: Member) returns (ms: seq<Member>)
    ensures ms == GenerateMember(from, to)
    decreases Depth(from), 1
  {
    CompareDepth(from, to.value);
    var code, x, y := CompareTrees(from, to.value);
    ms := [];
    if code != 0 {
      var p := Generate(Some(x), Some(y));
      if p.Some? {
        ms := [Member(to.name, p.value)];
      }
    }
  }

  lemma GenerateStep(patch: seq<Member>, fs: seq<Member>, ts: seq<Member>, a: nat, b: nat)
    requires a <= |fs| && b <= |ts| && (a < |fs| || b < |ts|)
    ensures var compare := if a < |fs| then if b < |ts| then Cmp(fs[a].name, ts[b].name) else -1 else 1;
      patch + GenerateMembers(fs[a..], ts[b..]) ==
      if compare < 0 then patch + [Member(fs[a].name, Null)] + GenerateMembers(fs[a + 1..], ts[b..])
      else if compare > 0 then patch + [ts[b]] + GenerateMembers(fs[a..], ts[b + 1..])
      else patch + GenerateMember(fs[a].value, ts[b]) + GenerateMembers(fs[a + 1..], ts[b + 1..])
  {
    hide GenerateMember;
    assert a < |fs| ==> fs[a..][1..] == fs[a + 1..];
    assert b < |ts| ==> ts[b..][1..] == ts[b + 1..];
    var compare := if a < |fs| then if b < |ts| then Cmp(fs[a].name, ts[b].name) else -1 else 1;
    if compare < 0 {
      Associative(patch, [Member(fs[a].name, Null)], GenerateMembers(fs[a + 1..], ts[b..]));
    } else if compare > 0 {
      Associative(patch, [ts[b]], GenerateMembers(fs[a..], ts[b + 1..]));
    } else {
      Associative(patch, GenerateMember(fs[a].value, ts[b]), GenerateMembers(fs[a + 1..], ts[b + 1..]));
    }
  }
}
