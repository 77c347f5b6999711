/** `cJSONUtils_Compare`: sorts the objects it meets, then walks both trees in step. */
module Comparing {
  import opened Bytes
  import opened Sequences
  import opened Sorting
  import opened Trees

  /** The return code, and both trees as the sorting left them. */
  datatype Comparison = Comparison(code: int, a: Json, b: Json)
  datatype ItemsComparison = ItemsComparison(code: int, a: seq<Json>, b: seq<Json>)
  datatype FieldsComparison = FieldsComparison(code: int, a: seq<Member>, b: seq<Member>)

  const MISMATCHED_TYPE := -1
  const NUMERIC_MISMATCH := -2
  const STRING_MISMATCH := -3
  const ARRAY_SIZE_MISMATCH := -4
  const OBJECT_LENGTH_MISMATCH := -5
  const MISSING_MEMBER := -6

  function Compare(a: Json, b: Json): Comparison
    decreases Depth(a), 0
  {
    if !SameType(a, b) then Comparison(MISMATCHED_TYPE, a, b)
    else match a
      case Number(d) => Comparison(if d != b.d then NUMERIC_MISMATCH else 0, a, b)
      case String(s) => Comparison(if s != b.s then STRING_MISMATCH else 0, a, b)
      case Array(xs) =>
        var r := CompareItems(xs, b.items);
        Comparison(r.code, Array(r.a), Array(r.b))
      case Object(ms) =>
        SortFacts(ms);
        var r := CompareFields(SortMembers(ms), SortMembers(b.members));
        Comparison(r.code, Object(r.a), Object(r.b))
      case _ => Comparison(0, a, b)
  }

  function CompareItems(xs: seq<Json>, ys: seq<Json>): ItemsComparison
    decreases ItemsDepth(xs), |xs|
  {
    if xs == [] || ys == [] then ItemsComparison(if xs == ys then 0 else ARRAY_SIZE_MISMATCH, xs, ys)
    else
      var h := Compare(xs[0], ys[0]);
      if h.code != 0 then ItemsComparison(h.code, [h.a] + xs[1..], [h.b] + ys[1..])
      else
        var r := CompareItems(xs[1..], ys[1..]);
        ItemsComparison(r.code, [h.a] + r.a, [h.b] + r.b)
  }

  function CompareFields(xs: seq<Member>, ys: seq<Member>): FieldsComparison
    decreases MembersDepth(xs), |xs|
  {
    if xs == [] || ys == [] then FieldsComparison(if xs == ys then 0 else OBJECT_LENGTH_MISMATCH, xs, ys)
    else if CaseCmp(xs[0].name, ys[0].name) != 0 then FieldsComparison(MISSING_MEMBER, xs, ys)
    else
      var h := Compare(xs[0].value, ys[0].value);
      var x, y := xs[0].(value := h.a), ys[0].(value := h.b);
      if h.code != 0 then FieldsComparison(h.code, [x] + xs[1..], [y] + ys[1..])
      else
        var r := CompareFields(xs[1..], ys[1..]);
        FieldsComparison(r.code, [x] + r.a, [y] + r.b)
  }

  // ----- code 0 exactly on trees with one meaning

  lemma StrictTail(ms: seq<Member>)
    requires ms != [] && StrictlySorted(ms, Folded)
    ensures StrictlySorted(ms[1..], Folded) && Distinct(ms, Folded) && Distinct(ms[1..], Folded)
    ensures Folded(ms[0]) !in FieldsMeaning(ms[1..], IgnoreCase)
  {
    forall i, j | 0 <= i < j < |ms| ensures Folded(ms[i]) != Folded(ms[j]) {
      assert KeyLess(ms[i], ms[j], Folded);
      CmpZero(Folded(ms[i]), Folded(ms[j]));
    }
    forall i, j | 0 <= i < j < |ms[1..]| ensures KeyLess(ms[1..][i], ms[1..][j], Folded) {
      assert KeyLess(ms[i + 1], ms[j + 1], Folded);
    }
    FieldNames(ms[1..], IgnoreCase);
    assert forall m | m in ms[1..] :: Folded(m) != Folded(ms[0]);
  }

  /** A name before all names of a sorted list is not in it. */
  lemma NotBefore(k: CString, ms: seq<Member>)
    requires ms != [] && StrictlySorted(ms, Folded) && Less(k, Folded(ms[0]))
    ensures k !in FieldsMeaning(ms, IgnoreCase)
  {
    FieldNames(ms, IgnoreCase);
    if k in FieldsMeaning(ms, IgnoreCase) {
      var m :| m in ms && Label(m.name, IgnoreCase) == k;
      var i :| 0 <= i < |ms| && ms[i] == m;
      if i > 0 {
        assert KeyLess(ms[0], ms[i], Folded);
        LessTransitive(k, Folded(ms[0]), k);
      }
      CmpZero(k, k);
    }
  }

  lemma InsertEqual<K, V>(f: map<K, V>, g: map<K, V>, k: K, u: V, v: V)
    requires k !in f && k !in g
    ensures f[k := u] == g[k := v] <==> f == g && u == v
  {
    if f[k := u] == g[k := v] {
      assert f == f[k := u] - {k} == g[k := v] - {k} == g;
      assert f[k := u][k] == g[k := v][k];
    }
  }

  /** Two sorted member lists mean the same exactly when their heads and their tails do. */
  lemma FieldsStep(xs: seq<Member>, ys: seq<Member>)
    requires xs != [] && ys != [] && StrictlySorted(xs, Folded) && StrictlySorted(ys, Folded)
    ensures FieldsMeaning(xs, IgnoreCase) == FieldsMeaning(ys, IgnoreCase) <==>
      Folded(xs[0]) == Folded(ys[0]) && Equivalent(xs[0].value, ys[0].value) &&
      FieldsMeaning(xs[1..], IgnoreCase) == FieldsMeaning(ys[1..], IgnoreCase)
  {
    var f, g := FieldsMeaning(xs, IgnoreCase), FieldsMeaning(ys, IgnoreCase);
    var k, l := Folded(xs[0]), Folded(ys[0]);
    StrictTail(xs);
    StrictTail(ys);
    assert k in f && l in g;
    if Less(k, l) {
      NotBefore(k, ys);
    } else if k != l {
      CmpZero(k, l);
      CmpAntisymmetric(k, l);
      NotBefore(l, xs);
    } else {
      InsertEqual(FieldsMeaning(xs[1..], IgnoreCase), FieldsMeaning(ys[1..], IgnoreCase), k,
                  Meaning(xs[0].value, IgnoreCase), Meaning(ys[0].value, IgnoreCase));
    }
  }

  /** `cJSONUtils_Compare` gives 0 exactly when the trees are equal up to member order and the case of names. */
  lemma {:induction false} CompareDecides(a: Json, b: Json)
    requires WellNamed(a) && WellNamed(b)
    ensures Compare(a, b).code == 0 <==> Equivalent(a, b)
    decreases Depth(a), 0
  {
    if SameType(a, b) {
      match a
      case Array(xs) =>
        CompareItemsDecides(xs, b.items);
      case Object(ms) =>
        SortFacts(ms);
        SortFacts(b.members);
        SortMeaning(ms, IgnoreCase);
        SortMeaning(b.members, IgnoreCase);
        CompareFieldsDecides(SortMembers(ms), SortMembers(b.members));
      case _ =>
    }
  }

  lemma {:induction false} CompareItemsDecides(xs: seq<Json>, ys: seq<Json>)
    requires ItemsWellNamed(xs) && ItemsWellNamed(ys)
    ensures CompareItems(xs, ys).code == 0 <==> ItemsMeaning(xs, IgnoreCase) == ItemsMeaning(ys, IgnoreCase)
    decreases ItemsDepth(xs), |xs|
  {
    if xs != [] && ys != [] {
      CompareDecides(xs[0], ys[0]);
      CompareItemsDecides(xs[1..], ys[1..]);
      var f, g := ItemsMeaning(xs, IgnoreCase), ItemsMeaning(ys, IgnoreCase);
      assert f == [f[0]] + ItemsMeaning(xs[1..], IgnoreCase) && g == [g[0]] + ItemsMeaning(ys[1..], IgnoreCase);
      assert f == g ==> f[1..] == g[1..] && f[0] == g[0];
    }
  }

  lemma {:induction false} CompareFieldsDecides(xs: seq<Member>, ys: seq<Member>)
    requires AllWellNamed(xs) && AllWellNamed(ys)
    requires StrictlySorted(xs, Folded) && StrictlySorted(ys, Folded)
    ensures CompareFields(xs, ys).code == 0 <==> FieldsMeaning(xs, IgnoreCase) == FieldsMeaning(ys, IgnoreCase)
    decreases MembersDepth(xs), |xs|
  {
    if xs != [] && ys != [] {
      CmpZero(Folded(xs[0]), Folded(ys[0]));
      FieldsStep(xs, ys);
      CompareDecides(xs[0].value, ys[0].value);
      StrictTail(xs);
      StrictTail(ys);
      CompareFieldsDecides(xs[1..], ys[1..]);
    } else {
      assert xs != [] ==> Folded(xs[0]) in FieldsMeaning(xs, IgnoreCase);
      assert ys != [] ==> Folded(ys[0]) in FieldsMeaning(ys, IgnoreCase);
    }
  }

  // ----- comparing only reorders members

  /** Both trees come back with the same meaning, names taken exactly, and as well named as they were. */
  lemma {:induction false} CompareReorders(a: Json, b: Json)
    requires WellNamed(a) && WellNamed(b)
    ensures var r := Compare(a, b);
      Reordered(r.a, a) && Reordered(r.b, b) && WellNamed(r.a) && WellNamed(r.b)
    decreases Depth(a), 0
  {
    if SameType(a, b) {
      match a
      case Array(xs) =>
        CompareItemsReorders(xs, b.items);
      case Object(ms) =>
        SortFacts(ms);
        SortFacts(b.members);
        SortMeaning(ms, Exact);
        SortMeaning(b.members, Exact);
        CompareFieldsReorders(SortMembers(ms), SortMembers(b.members));
      case _ =>
    }
  }

  lemma {:induction false} CompareItemsReorders(xs: seq<Json>, ys: seq<Json>)
    requires ItemsWellNamed(xs) && ItemsWellNamed(ys)
    ensures var r := CompareItems(xs, ys);
      && ItemsMeaning(r.a, Exact) == ItemsMeaning(xs, Exact) && ItemsMeaning(r.b, Exact) == ItemsMeaning(ys, Exact)
      && ItemsWellNamed(r.a) && ItemsWellNamed(r.b)
    decreases ItemsDepth(xs), |xs|
  {
    if xs != [] && ys != [] {
      CompareReorders(xs[0], ys[0]);
      CompareItemsReorders(xs[1..], ys[1..]);
    }
  }

  ghost predicate SameNames(xs: seq<Member>, ys: seq<Member>) {
    |xs| == |ys| && forall i :: 0 <= i < |xs| ==> xs[i].name == ys[i].name
  }

  /** What one step of the walk may do to a member list: put a reordered value in place of the first one. */
  lemma ReorderedHead(xs: seq<Member>, v: Json, rest: seq<Member>)
    requires xs != [] && AllWellNamed(xs) && Reordered(v, xs[0].value) && WellNamed(v)
    requires SameNames(rest, xs[1..]) && AllWellNamed(rest)
    requires FieldsMeaning(rest, Exact) == FieldsMeaning(xs[1..], Exact)
    ensures var r := [xs[0].(value := v)] + rest;
      SameNames(r, xs) && AllWellNamed(r) && FieldsMeaning(r, Exact) == FieldsMeaning(xs, Exact)
  {
    var r := [xs[0].(value := v)] + rest;
    assert r[1..] == rest;
    forall i, j | 0 <= i < j < |r| ensures Folded(r[i]) != Folded(r[j]) {
      assert Folded(xs[i]) != Folded(xs[j]);
      assert rest[j - 1].name == xs[1..][j - 1].name;
      assert i > 0 ==> rest[i - 1].name == xs[1..][i - 1].name;
    }
  }

  lemma {:induction false} CompareFieldsReorders(xs: seq<Member>, ys: seq<Member>)
    requires AllWellNamed(xs) && AllWellNamed(ys)
    ensures var r := CompareFields(xs, ys);
      && SameNames(r.a, xs) && FieldsMeaning(r.a, Exact) == FieldsMeaning(xs, Exact) && AllWellNamed(r.a)
      && SameNames(r.b, ys) && FieldsMeaning(r.b, Exact) == FieldsMeaning(ys, Exact) && AllWellNamed(r.b)
    decreases MembersDepth(xs), |xs|
  {
    if xs != [] && ys != [] && CaseCmp(xs[0].name, ys[0].name) == 0 {
      var h := Compare(xs[0].value, ys[0].value);
      CompareReorders(xs[0].value, ys[0].value);
      assert AllWellNamed(xs[1..]) && AllWellNamed(ys[1..]);
      CompareFieldsReorders(xs[1..], ys[1..]);
      var r := CompareFields(xs[1..], ys[1..]);
      ReorderedHead(xs, h.a, if h.code != 0 then xs[1..] else r.a);
      ReorderedHead(ys, h.b, if h.code != 0 then ys[1..] else r.b);
    }
  }

  // ----- the loops of the code

  lemma {:induction false} ElementDepths(xs: seq<Json>, i: nat)
    requires i < |xs|
    ensures Depth(xs[i]) <= ItemsDepth(xs)
  {
    if i > 0 {
      ElementDepths(xs[1..], i - 1);
    }
  }

  lemma {:induction false} FieldDepths(ms: seq<Member>, i: nat)
    requires i < |ms|
    ensures Depth(ms[i].value) <= MembersDepth(ms)
  {
    if i > 0 {
      FieldDepths(ms[1..], i - 1);
    }
  }

  /** The walk over two arrays stands at `i`, the rebuilt elements before it being `xs'` and `ys'`. */
  ghost predicate ItemsWalk(xs: seq<Json>, ys: seq<Json>, i: nat, xs': seq<Json>, ys': seq<Json>) {
    && i <= |xs| && i <= |ys|
    && var r := CompareItems(xs[i..], ys[i..]);
       CompareItems(xs, ys) == ItemsComparison(r.code, xs' + r.a, ys' + r.b)
  }

  lemma ItemsWalkStep(xs: seq<Json>, ys: seq<Json>, i: nat, xs': seq<Json>, ys': seq<Json>)
    requires ItemsWalk(xs, ys, i, xs', ys') && i < |xs| && i < |ys|
    ensures var h := Compare(xs[i], ys[i]);
      if h.code != 0
      then CompareItems(xs, ys) == ItemsComparison(h.code, xs' + [h.a] + xs[i + 1..], ys' + [h.b] + ys[i + 1..])
      else ItemsWalk(xs, ys, i + 1, xs' + [h.a], ys' + [h.b])
  {
    var ss, tt := xs[i..], ys[i..];
    var h, r := Compare(ss[0], tt[0]), CompareItems(ss, tt);
    assert ss[1..] == xs[i + 1..] && tt[1..] == ys[i + 1..];
    if h.code != 0 {
      Associative(xs', [h.a], ss[1..]);
      Associative(ys', [h.b], tt[1..]);
    } else {
      var q := CompareItems(ss[1..], tt[1..]);
      Associative(xs', [h.a], q.a);
      Associative(ys', [h.b], q.b);
    }
  }

  ghost predicate FieldsWalk(xs: seq<Member>, ys: seq<Member>, i: nat, xs': seq<Member>, ys': seq<Member>) {
    && i <= |xs| && i <= |ys|
    && var r := CompareFields(xs[i..], ys[i..]);
       CompareFields(xs, ys) == FieldsComparison(r.code, xs' + r.a, ys' + r.b)
  }

  lemma FieldsWalkStep(xs: seq<Member>, ys: seq<Member>, i: nat, xs': seq<Member>, ys': seq<Member>)
    requires FieldsWalk(xs, ys, i, xs', ys') && i < |xs| && i < |ys| && CaseCmp(xs[i].name, ys[i].name) == 0
    ensures var h := Compare(xs[i].value, ys[i].value);
      var x, y := xs[i].(value := h.a), ys[i].(value := h.b);
      if h.code != 0
      then CompareFields(xs, ys) == FieldsComparison(h.code, xs' + [x] + xs[i + 1..], ys' + [y] + ys[i + 1..])
      else FieldsWalk(xs, ys, i + 1, xs' + [x], ys' + [y])
  {
    var ss, tt := xs[i..], ys[i..];
    var h, r := Compare(ss[0].value, tt[0].value), CompareFields(ss, tt);
    var x, y := ss[0].(value := h.a), tt[0].(value := h.b);
    assert ss[1..] == xs[i + 1..] && tt[1..] == ys[i + 1..];
    if h.code != 0 {
      Associative(xs', [x], ss[1..]);
      Associative(ys', [y], tt[1..]);
    } else {
      var q := CompareFields(ss[1..], tt[1..]);
      Associative(xs', [x], q.a);
      Associative(ys', [y], q.b);
    }
  }

  lemma FieldsWalkEnds(xs: seq<Member>, ys: seq<Member>, i: nat, xs': seq<Member>, ys': seq<Member>)
    requires FieldsWalk(xs, ys, i, xs', ys')
    ensures i < |xs| && i < |ys| && CaseCmp(xs[i].name, ys[i].name) != 0 ==>
      CompareFields(xs, ys) == FieldsComparison(MISSING_MEMBER, xs' + xs[i..], ys' + ys[i..])
    ensures i == |xs| || i == |ys| ==>
      CompareFields(xs, ys) ==
      FieldsComparison(if i < |xs| || i < |ys| then OBJECT_LENGTH_MISMATCH else 0, xs' + xs[i..], ys' + ys[i..])
  {
    hide CaseCmp, Compare;
  }

  lemma FieldsWalkStarts(xs: seq<Member>, ys: seq<Member>)
    ensures FieldsWalk(xs, ys, 0, [], [])
  {
    var r := CompareFields(xs, ys);
    assert xs[0..] == xs && ys[0..] == ys && [] + r.a == r.a && [] + r.b == r.b;
  }

  /** The walks as they run: both lists advance together, stopping at the first difference. */
  method CompareTrees(a: Json, b: Json) returns (code: int, a': Json, b': Json)
    ensures Comparison(code, a', b') == Compare(a, b)
    decreases Depth(a), 0
  {
    a', b' := a, b;
    if !SameType(a, b) {
      return MISMATCHED_TYPE, a, b;
    }
    match a
    case Number(d) =>
      code := if d != b.d then NUMERIC_MISMATCH else 0;
    case String(s) =>
      code := if s != b.s then STRING_MISMATCH else 0;
    case Array(xs) =>
      var xs', ys';
      code, xs', ys' := WalkItems(xs, b.items);
      a', b' := Array(xs'), Array(ys');
    case Object(ms) =>
      SortFacts(ms);
      var xs', ys';
      code, xs', ys' := WalkFields(SortMembers(ms), SortMembers(b.members));
      a', b' := Object(xs'), Object(ys');
    case _ =>
      code := 0;
  }

  method WalkItems(xs: seq<Json>, ys: seq<Json>) returns (code: int, xs': seq<Json>, ys': seq<Json>)
    ensures ItemsComparison(code, xs', ys') == CompareItems(xs, ys)
    decreases ItemsDepth(xs), 1
  {
    var i := 0;
    xs', ys' := [], [];
    while i < |xs| && i < |ys|
      invariant ItemsWalk(xs, ys, i, xs', ys')
    {
      ElementDepths(xs, i);
      ItemsWalkStep(xs, ys, i, xs', ys');
      var err, x, y := CompareTrees(xs[i], ys[i]);
      if err != 0 {
        return err, xs' + [x] + xs[i + 1..], ys' + [y] + ys[i + 1..];
      }
      xs', ys', i := xs' + [x], ys' + [y], i + 1;
    }
    return if i < |xs| || i < |ys| then ARRAY_SIZE_MISMATCH else 0, xs' + xs[i..], ys' + ys[i..];
  }

  method WalkFields(xs: seq<Member>, ys: seq<Member>) returns (code: int, xs': seq<Member>, ys': seq<Member>)
    ensures FieldsComparison(code, xs', ys') == CompareFields(xs, ys)
    decreases MembersDepth(xs), 1
  {
    hide SameName, CaseCmp, Compare, CompareFields, FieldsWalk;
    FieldsWalkStarts(xs, ys);
    var i := 0;
    xs', ys' := [], [];
    while i < |xs| && i < |ys|
      invariant i <= |xs| && i <= |ys| && FieldsWalk(xs, ys, i, xs', ys')
    {
      FieldsWalkEnds(xs, ys, i, xs', ys');
      var differ := StrCaseCmp(xs[i].name, ys[i].name);
      if differ != 0 {
        return MISSING_MEMBER, xs' + xs[i..], ys' + ys[i..];
      }
      FieldsWalkStep(xs, ys, i, xs', ys');
      FieldDepths(xs, i);
      var err, x, y := CompareTrees(xs[i].value, ys[i].value);
      if err != 0 {
        return err, xs' + [xs[i].(value := x)] + xs[i + 1..], ys' + [ys[i].(value := y)] + ys[i + 1..];
      }
      xs', ys', i := xs' + [xs[i].(value := x)], ys' + [ys[i].(value := y)], i + 1;
    }
    FieldsWalkEnds(xs, ys, i, xs', ys');
    return if i < |xs| || i < |ys| then OBJECT_LENGTH_MISMATCH else 0, xs' + xs[i..], ys' + ys[i..];
  }
}
