/** When two trees are alike, member by member, and that comparing decides exactly this. */
module Likeness {
  import opened Bytes
  import opened Comparing
  import opened Members
  import opened Sorting
  import opened Trees

  /**
   * The same up to the order of members and the ASCII case of their names: of two objects, each member of either has a
   * partner in the other.
   */
  ghost predicate Alike(a: Json, b: Json) {
    match a
    case Null => b.Null?
    case False => b.False?
    case True => b.True?
    case Number(d) => b == Number(d)
    case String(s) => b == String(s)
    case Array(xs) =>
      b.Array? && |xs| == |b.items| && forall i | 0 <= i < |xs| :: Alike(xs[i], b.items[i])
    case Object(ms) =>
      && b.Object?
      && (forall m | m in ms :: exists n | n in b.members :: SameName(m.name, n.name) && Alike(m.value, n.value))
      && (forall n | n in b.members :: exists m | m in ms :: SameName(m.name, n.name) && Alike(m.value, n.value))
  }

  /** Alike is having one meaning. */
  lemma {:induction false} AlikeMeans(a: Json, b: Json)
    requires WellNamed(a) && WellNamed(b)
    ensures Alike(a, b) <==> Equivalent(a, b)
    decreases a
  {
    match a
    case Array(xs) =>
      if b.Array? && |xs| == |b.items| {
        AlikeItems(xs, b.items);
      }
    case Object(ms) =>
      if b.Object? {
        forall m, n | m in ms && n in b.members
          ensures Alike(m.value, n.value) <==> Equivalent(m.value, n.value)
        {
          AlikeMeans(m.value, n.value);
        }
        AlikeFields(ms, b.members);
      }
    case _ =>
  }

  lemma {:induction false} AlikeItems(xs: seq<Json>, ys: seq<Json>)
    requires ItemsWellNamed(xs) && ItemsWellNamed(ys) && |xs| == |ys|
    ensures (forall i | 0 <= i < |xs| :: Alike(xs[i], ys[i])) <==>
      ItemsMeaning(xs, IgnoreCase) == ItemsMeaning(ys, IgnoreCase)
    decreases xs
  {
    if xs != [] {
      AlikeMeans(xs[0], ys[0]);
      AlikeItems(xs[1..], ys[1..]);
      var f, g := ItemsMeaning(xs, IgnoreCase), ItemsMeaning(ys, IgnoreCase);
      assert f[0] == Meaning(xs[0], IgnoreCase) && g[0] == Meaning(ys[0], IgnoreCase);
      assert f[1..] == ItemsMeaning(xs[1..], IgnoreCase) && g[1..] == ItemsMeaning(ys[1..], IgnoreCase);
      assert f == g <==> f[0] == g[0] && f[1..] == g[1..];
      forall i | 0 <= i < |xs|
        ensures i > 0 ==> xs[i] == xs[1..][i - 1] && ys[i] == ys[1..][i - 1]
      {}
    }
  }

  ghost predicate Partner(m: Member, n: Member) {
    Folded(m) == Folded(n) && Equivalent(m.value, n.value)
  }

  /** Every member of `ms` has a partner in `ns`. */
  ghost predicate Partnered(ms: seq<Member>, ns: seq<Member>) {
    forall m | m in ms :: exists n | n in ns :: Partner(m, n)
  }

  ghost predicate Part(f: map<CString, Value>, g: map<CString, Value>) {
    forall k | k in f :: k in g && g[k] == f[k]
  }

  lemma PartnersMean(ms: seq<Member>, ns: seq<Member>)
    requires Distinct(ms, Folded) && Distinct(ns, Folded)
    ensures Partnered(ms, ns) <==> Part(FieldsMeaning(ms, IgnoreCase), FieldsMeaning(ns, IgnoreCase))
  {
    hide FieldsMeaning, Meaning;
    var f, g := FieldsMeaning(ms, IgnoreCase), FieldsMeaning(ns, IgnoreCase);
    if Partnered(ms, ns) {
      forall k | k in f
        ensures k in g && g[k] == f[k]
      {
        var m := MemberOf(ms, k, IgnoreCase);
        var n :| n in ns && Partner(m, n);
        FieldOf(ns, n, IgnoreCase);
      }
    }
    if Part(f, g) {
      forall m | m in ms
        ensures exists n | n in ns :: Partner(m, n)
      {
        FieldOf(ms, m, IgnoreCase);
        var n := MemberOf(ns, Folded(m), IgnoreCase);
        assert Partner(m, n);
      }
    }
  }

  /** `Alike` and `Partner` agree on the members of two objects. */
  ghost predicate Agreed(ms: seq<Member>, ns: seq<Member>) {
    forall m, n | m in ms && n in ns :: SameName(m.name, n.name) && Alike(m.value, n.value) <==> Partner(m, n)
  }

  lemma MembersAgreed(ms: seq<Member>, ns: seq<Member>)
    requires forall m, n | m in ms && n in ns :: Alike(m.value, n.value) <==> Equivalent(m.value, n.value)
    ensures Agreed(ms, ns)
  {
    hide LowerAll, SameName, Equivalent, Alike;
    forall m, n | m in ms && n in ns
      ensures SameName(m.name, n.name) && Alike(m.value, n.value) <==> Partner(m, n)
    {
      LowerAllDecides(m.name, n.name);
    }
  }

  /** Of two objects `Alike` asks for partners both ways. */
  lemma AlikePartners(ms: seq<Member>, ns: seq<Member>)
    requires Agreed(ms, ns)
    ensures Alike(Object(ms), Object(ns)) <==> Partnered(ms, ns) && Partnered(ns, ms)
  {
    hide SameName, Partner;
    forall m, n | m in ms && n in ns
      ensures Partner(m, n) <==> Partner(n, m)
    {
      PartnerTurns(m, n);
    }
  }

  lemma AlikeFields(ms: seq<Member>, ns: seq<Member>)
    requires Distinct(ms, Folded) && Distinct(ns, Folded)
    requires forall m, n | m in ms && n in ns :: Alike(m.value, n.value) <==> Equivalent(m.value, n.value)
    ensures Alike(Object(ms), Object(ns)) <==> FieldsMeaning(ms, IgnoreCase) == FieldsMeaning(ns, IgnoreCase)
  {
    hide FieldsMeaning, Meaning, Partnered, Part, Alike, Equivalent, Agreed;
    MembersAgreed(ms, ns);
    AlikePartners(ms, ns);
    PartnersMean(ms, ns);
    PartnersMean(ns, ms);
    PartsEqual(FieldsMeaning(ms, IgnoreCase), FieldsMeaning(ns, IgnoreCase));
  }

  lemma PartsEqual(f: map<CString, Value>, g: map<CString, Value>)
    ensures f == g <==> Part(f, g) && Part(g, f)
  {}

  lemma PartnerTurns(m: Member, n: Member)
    ensures Partner(m, n) <==> Partner(n, m)
    ensures Partner(m, n) <==> Folded(m) == Folded(n) && Equivalent(m.value, n.value)
  {}

  /** `cJSONUtils_Compare` gives 0 exactly on trees that are alike. */
  lemma CompareLikeness(a: Json, b: Json)
    requires WellNamed(a) && WellNamed(b)
    ensures Compare(a, b).code == 0 <==> Alike(a, b)
  {
    CompareDecides(a, b);
    AlikeMeans(a, b);
  }

  /** `cJSON_GetObjectItem` finds the first member of that name ignoring ASCII case. */
  lemma FindsSameName(ms: seq<Member>, name: CString)
    ensures var i := FindName(ms, name);
      && (i < |ms| ==> SameName(ms[i].name, name))
      && forall j | 0 <= j < i :: !SameName(ms[j].name, name)
  {
    var i := FindName(ms, name);
    forall j | 0 <= j <= i && j < |ms|
      ensures Folded(ms[j]) == LowerAll(name) <==> SameName(ms[j].name, name)
    {
      LowerAllDecides(ms[j].name, name);
    }
  }

  // ----- which code tells the difference

  lemma ScalarCodes(a: Json, b: Json)
    ensures !SameType(a, b) ==> Compare(a, b).code == -1
    ensures a.Number? && b.Number? && a.d != b.d ==> Compare(a, b).code == -2
    ensures a.String? && b.String? && a.s != b.s ==> Compare(a, b).code == -3
  {}

  /** Of two arrays the first pair of items that differ decides, and behind equal items their lengths. */
  lemma {:induction false} ArrayCode(xs: seq<Json>, ys: seq<Json>, k: nat)
    requires k <= |xs| && k <= |ys| && forall i | 0 <= i < k :: Compare(xs[i], ys[i]).code == 0
    ensures k < |xs| && k < |ys| && Compare(xs[k], ys[k]).code != 0 ==>
      Compare(Array(xs), Array(ys)).code == Compare(xs[k], ys[k]).code
    ensures (k == |xs|) != (k == |ys|) ==> Compare(Array(xs), Array(ys)).code == -4
    decreases k
  {
    hide Compare;
    ItemsCode(xs, ys);
    if k > 0 {
      ItemsCode(xs[1..], ys[1..]);
      ArrayCode(xs[1..], ys[1..], k - 1);
    }
  }

  lemma ItemsCode(xs: seq<Json>, ys: seq<Json>)
    ensures Compare(Array(xs), Array(ys)).code == CompareItems(xs, ys).code
  {}

  /** Of two objects the first members in the order of their names that differ decide, behind like ones their number. */
  lemma ObjectCode(ms: seq<Member>, ns: seq<Member>, k: nat)
    requires var (xs, ys) := (SortMembers(ms), SortMembers(ns));
      k <= |xs| && k <= |ys| && Paired(xs, ys, k)
    ensures var (xs, ys) := (SortMembers(ms), SortMembers(ns));
      && (k < |xs| && k < |ys| && !SameName(xs[k].name, ys[k].name) ==> Compare(Object(ms), Object(ns)).code == -6)
      && (k < |xs| && k < |ys| && SameName(xs[k].name, ys[k].name) && Compare(xs[k].value, ys[k].value).code != 0 ==>
            Compare(Object(ms), Object(ns)).code == Compare(xs[k].value, ys[k].value).code)
      && ((k == |xs|) != (k == |ys|) ==> Compare(Object(ms), Object(ns)).code == -5)
  {
    var xs, ys := SortMembers(ms), SortMembers(ns);
    assert Compare(Object(ms), Object(ns)).code == CompareFields(xs, ys).code;
    hide Compare, SortMembers;
    FieldsCode(xs, ys, k);
  }

  /** The first `k` members of both have the same names and compare equal. */
  ghost predicate Paired(xs: seq<Member>, ys: seq<Member>, k: nat)
    requires k <= |xs| && k <= |ys|
  {
    forall i | 0 <= i < k :: SameName(xs[i].name, ys[i].name) && Compare(xs[i].value, ys[i].value).code == 0
  }

  lemma {:induction false} FieldsCode(xs: seq<Member>, ys: seq<Member>, k: nat)
    requires k <= |xs| && k <= |ys| && Paired(xs, ys, k)
    ensures k < |xs| && k < |ys| && !SameName(xs[k].name, ys[k].name) ==> CompareFields(xs, ys).code == -6
    ensures k < |xs| && k < |ys| && SameName(xs[k].name, ys[k].name) && Compare(xs[k].value, ys[k].value).code != 0 ==>
      CompareFields(xs, ys).code == Compare(xs[k].value, ys[k].value).code
    ensures (k == |xs|) != (k == |ys|) ==> CompareFields(xs, ys).code == -5
    decreases k
  {
    hide Compare, SameName, CaseCmp;
    if xs != [] && ys != [] {
      CaseCmpDecides(xs[0].name, ys[0].name);
      if k > 0 {
        assert SameName(xs[0].name, ys[0].name) && Compare(xs[0].value, ys[0].value).code == 0;
        FieldsCode(xs[1..], ys[1..], k - 1);
      }
    }
  }
}
