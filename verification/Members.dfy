/** Child lists as sequences: finding, detaching and adding members by name. */
module Members {
  import opened Bytes
  import opened Options
  import opened Sorting
  import opened Trees

  // ----- child lists

  /** Where the walk of `cJSON_DetachItemFromArray` and `cJSON_InsertItemInArray` stops. */
  function Steps(which: int): nat {
    if which < 0 then 0 else which
  }

  function Remove<T>(s: seq<T>, i: nat): seq<T> {
    if i < |s| then s[..i] + s[i + 1..] else s
  }

  function Insert<T>(s: seq<T>, i: nat, x: T): seq<T> {
    if i < |s| then s[..i] + [x] + s[i..] else s + [x]
  }

  /** The first member of that name ignoring ASCII case, or the number of members. */
  function FindName(ms: seq<Member>, name: CString): (i: nat)
    ensures i <= |ms| && (i < |ms| ==> Folded(ms[i]) == LowerAll(name))
    ensures forall j :: 0 <= j < i ==> Folded(ms[j]) != LowerAll(name)
  {
    if ms == [] || Folded(ms[0]) == LowerAll(name) then 0
    else
      var i := FindName(ms[1..], name);
      assert forall j :: 0 < j < i + 1 ==> ms[j] == ms[1..][j - 1];
      i + 1
  }

  /** `cJSON_GetObjectItem`. */
  function GetItem(t: Json, name: CString): Option<Json> {
    if t.Object? && FindName(t.members, name) < |t.members| then Some(t.members[FindName(t.members, name)].value)
    else None
  }

  /** `cJSON_DetachItemFromObject` with the detached item dropped. */
  function Without(ms: seq<Member>, name: CString): seq<Member> {
    Remove(ms, FindName(ms, name))
  }

  // ----- looking members up

  /** The value of the first member whose folded name is `k`. */
  function Lookup(ms: seq<Member>, k: CString): Option<Json> {
    if ms == [] then None
    else if Folded(ms[0]) == k then Some(ms[0].value)
    else Lookup(ms[1..], k)
  }

  lemma {:induction false} LookupFound(ms: seq<Member>, k: CString)
    ensures Lookup(ms, k).Some? <==> exists m :: m in ms && Folded(m) == k
    ensures Lookup(ms, k).Some? ==> exists m :: m in ms && Folded(m) == k && m.value == Lookup(ms, k).value
  {
    if ms != [] {
      LookupFound(ms[1..], k);
      assert ms == [ms[0]] + ms[1..];
    }
  }

  lemma {:induction false} LookupAt(ms: seq<Member>, i: nat)
    requires Distinct(ms, Folded) && i < |ms|
    ensures Lookup(ms, Folded(ms[i])) == Some(ms[i].value)
  {
    if i > 0 {
      assert Folded(ms[0]) != Folded(ms[i]);
      LookupAt(ms[1..], i - 1);
    }
  }

  lemma {:induction false} LookupConcat(a: seq<Member>, b: seq<Member>, k: CString)
    ensures Lookup(a + b, k) == if Lookup(a, k).Some? then Lookup(a, k) else Lookup(b, k)
  {
    if a == [] {
      assert a + b == b;
    } else {
      LookupConcat(a[1..], b, k);
      assert (a + b)[1..] == a[1..] + b;
    }
  }

  lemma {:induction false} LookupMeaning(ms: seq<Member>, k: CString)
    ensures k in FieldsMeaning(ms, IgnoreCase) <==> Lookup(ms, k).Some?
    ensures Lookup(ms, k).Some? ==> FieldsMeaning(ms, IgnoreCase)[k] == Meaning(Lookup(ms, k).value, IgnoreCase)
  {
    if ms != [] {
      LookupMeaning(ms[1..], k);
    }
  }

  lemma LookupPermuted(s: seq<Member>, t: seq<Member>, k: CString)
    requires multiset(s) == multiset(t) && Distinct(s, Folded)
    ensures Lookup(s, k) == Lookup(t, k)
  {
    PermutationDistinct(s, t, Folded);
    LookupIn(s, t, k);
    LookupIn(t, s, k);
  }

  lemma LookupIn(s: seq<Member>, t: seq<Member>, k: CString)
    requires multiset(s) == multiset(t) && Distinct(t, Folded)
    ensures Lookup(s, k).Some? ==> Lookup(t, k) == Lookup(s, k)
  {
    LookupFound(s, k);
    if Lookup(s, k).Some? {
      var m :| m in s && Folded(m) == k && m.value == Lookup(s, k).value;
      assert m in multiset(s);
      var i :| 0 <= i < |t| && t[i] == m;
      LookupAt(t, i);
    }
  }

  // ----- detaching and adding

  lemma FindNameLookup(ms: seq<Member>, name: CString)
    requires Distinct(ms, Folded)
    ensures var i := FindName(ms, name);
      Lookup(ms, LowerAll(name)) == if i < |ms| then Some(ms[i].value) else None
  {
    var i := FindName(ms, name);
    if i < |ms| {
      LookupAt(ms, i);
    } else {
      LookupFound(ms, LowerAll(name));
    }
  }

  lemma RemoveDistinct(ms: seq<Member>, i: nat)
    requires AllWellNamed(ms)
    ensures AllWellNamed(Remove(ms, i))
  {
    var r := Remove(ms, i);
    assert forall j :: 0 <= j < |r| ==> r[j] == ms[if i < |ms| && j >= i then j + 1 else j];
  }

  /** Detaching a name removes that name and nothing else. */
  lemma WithoutLookup(ms: seq<Member>, name: CString, k: CString)
    requires Distinct(ms, Folded)
    ensures Lookup(Without(ms, name), k) == if k == LowerAll(name) then None else Lookup(ms, k)
  {
    var i := FindName(ms, name);
    if i < |ms| {
      var a, m, b := ms[..i], ms[i], ms[i + 1..];
      assert ms == a + ([m] + b);
      LookupConcat(a, [m] + b, k);
      LookupConcat(a, b, k);
      LookupConcat([m], b, k);
      if k == LowerAll(name) {
        LookupFound(a, k);
        LookupFound(b, k);
        assert forall x | x in b :: Folded(x) != Folded(m);
      }
    } else {
      FindNameLookup(ms, name);
    }
  }

  /** Adding a new name adds that name and nothing else. */
  lemma AppendLookup(ms: seq<Member>, m: Member, k: CString)
    requires Lookup(ms, Folded(m)).None?
    ensures Lookup(ms + [m], k) == if k == Folded(m) then Some(m.value) else Lookup(ms, k)
  {
    LookupConcat(ms, [m], k);
  }

  lemma AppendDistinct(ms: seq<Member>, m: Member)
    requires AllWellNamed(ms) && Lookup(ms, Folded(m)).None? && WellNamed(m.value)
    ensures AllWellNamed(ms + [m])
  {
    LookupFound(ms, Folded(m));
  }

  lemma {:induction false} UpdateLookup(ms: seq<Member>, i: nat, v: Json, k: CString)
    requires Distinct(ms, Folded) && i < |ms|
    ensures Lookup(ms[i := ms[i].(value := v)], k) == if k == Folded(ms[i]) then Some(v) else Lookup(ms, k)
  {
    var a, m, b := ms[..i], ms[i], ms[i + 1..];
    var m' := m.(value := v);
    assert ms == a + ([m] + b) && ms[i := m'] == a + ([m'] + b);
    LookupConcat(a, [m] + b, k);
    LookupConcat(a, [m'] + b, k);
    LookupConcat([m], b, k);
    LookupConcat([m'], b, k);
    if k == Folded(m) {
      LookupFound(a, k);
    }
  }

  lemma UpdateDistinct(ms: seq<Member>, i: nat, v: Json)
    requires AllWellNamed(ms) && i < |ms| && WellNamed(v)
    ensures AllWellNamed(ms[i := ms[i].(value := v)])
  {
    var r := ms[i := ms[i].(value := v)];
    assert forall j :: 0 <= j < |r| ==> Folded(r[j]) == Folded(ms[j]);
  }

  // ----- trees that differ in member order only

  lemma ReorderedLookup(s: seq<Member>, t: seq<Member>, k: CString)
    requires FieldsMeaning(s, Exact) == FieldsMeaning(t, Exact) && Distinct(s, Folded) && Distinct(t, Folded)
    ensures Lookup(s, k).Some? ==> Lookup(t, k).Some? && Reordered(Lookup(s, k).value, Lookup(t, k).value)
  {
    LookupFound(s, k);
    if Lookup(s, k).Some? {
      var m :| m in s && Folded(m) == k && m.value == Lookup(s, k).value;
      FieldOf(s, m, Exact);
      var n := MemberOf(t, m.name, Exact);
      var i :| 0 <= i < |t| && t[i] == n;
      LookupAt(t, i);
    }
  }

  lemma LookupWellNamed(ms: seq<Member>, k: CString)
    requires AllWellNamed(ms)
    ensures Lookup(ms, k).Some? ==> WellNamed(Lookup(ms, k).value)
  {
    LookupFound(ms, k);
  }

  /** Trees that differ in member order only are equivalent. */
  lemma {:induction false} ReorderedEquivalent(a: Json, b: Json)
    requires WellNamed(a) && WellNamed(b) && Reordered(a, b)
    ensures Equivalent(a, b)
    decreases a
  {
    match a
    case Array(xs) => ReorderedItems(xs, b.items);
    case Object(ms) =>
      var f, g := FieldsMeaning(ms, IgnoreCase), FieldsMeaning(b.members, IgnoreCase);
      forall k ensures (k in f <==> k in g) && (k in f ==> f[k] == g[k]) {
        LookupMeaning(ms, k);
        LookupMeaning(b.members, k);
        ReorderedLookup(ms, b.members, k);
        ReorderedLookup(b.members, ms, k);
        LookupWellNamed(ms, k);
        LookupWellNamed(b.members, k);
        if k in f {
          LookupBelow(ms, k);
          ReorderedEquivalent(Lookup(ms, k).value, Lookup(b.members, k).value);
        }
      }
    case _ =>
  }

  lemma LookupBelow(ms: seq<Member>, k: CString)
    requires Lookup(ms, k).Some?
    ensures Lookup(ms, k).value < Object(ms)
    ensures Depth(Lookup(ms, k).value) <= MembersDepth(ms)
  {
    LookupFound(ms, k);
    var m :| m in ms && Folded(m) == k && m.value == Lookup(ms, k).value;
    MembersDepthBound(ms, MembersDepth(ms));
  }

  lemma {:induction false} ReorderedItems(xs: seq<Json>, ys: seq<Json>)
    requires ItemsWellNamed(xs) && ItemsWellNamed(ys) && ItemsMeaning(xs, Exact) == ItemsMeaning(ys, Exact)
    ensures ItemsMeaning(xs, IgnoreCase) == ItemsMeaning(ys, IgnoreCase)
    decreases xs
  {
    assert |xs| == |ItemsMeaning(xs, Exact)| == |ys|;
    if xs != [] {
      ItemsTail(xs, ys);
      ReorderedEquivalent(xs[0], ys[0]);
      ReorderedItems(xs[1..], ys[1..]);
    }
  }

  lemma ItemsTail(xs: seq<Json>, ys: seq<Json>)
    requires xs != [] && ys != [] && ItemsMeaning(xs, Exact) == ItemsMeaning(ys, Exact)
    ensures Reordered(xs[0], ys[0]) && ItemsMeaning(xs[1..], Exact) == ItemsMeaning(ys[1..], Exact)
  {
    var f, g := ItemsMeaning(xs, Exact), ItemsMeaning(ys, Exact);
    assert f[1..] == ItemsMeaning(xs[1..], Exact) && g[1..] == ItemsMeaning(ys[1..], Exact);
    assert f[0] == Meaning(xs[0], Exact) && g[0] == Meaning(ys[0], Exact);
  }
}
