/** JSON trees, and what a tree means once member order (and the case of names) is forgotten. */
module Trees {
  import opened Bytes
  import opened Sorting

  /**
   * A `cJSON` item: its type and, by type, its number, string or child chain. Members carry the name that
   * the item stores for its parent. The flag bits for references and constant names are always clear.
   */
  datatype Json =
    | Null
    | False
    | True
    | Number(d: real)
    | String(s: CString)
    | Array(items: seq<Json>)
    | Object(members: seq<Member>)
  {
    predicate Container() {
      Array? || Object?
    }
  }

  datatype Member = Member(name: CString, value: Json)

  predicate SameType(a: Json, b: Json) {
    match a
    case Null => b.Null?
    case False => b.False?
    case True => b.True?
    case Number(_) => b.Number?
    case String(_) => b.String?
    case Array(_) => b.Array?
    case Object(_) => b.Object?
  }

  function Folded(m: Member): CString {
    LowerAll(m.name)
  }

  /** `cJSONUtils_SortObject`. */
  function SortMembers(ms: seq<Member>): seq<Member> {
    SortBy(ms, Folded)
  }

  /** In every object the names are distinct ignoring ASCII case. */
  ghost predicate WellNamed(t: Json) {
    match t
    case Array(xs) => ItemsWellNamed(xs)
    case Object(ms) => Distinct(ms, Folded) && forall m | m in ms :: WellNamed(m.value)
    case _ => true
  }

  ghost predicate ItemsWellNamed(xs: seq<Json>) {
    xs == [] || (WellNamed(xs[0]) && ItemsWellNamed(xs[1..]))
  }

  ghost predicate AllWellNamed(ms: seq<Member>) {
    Distinct(ms, Folded) && forall m | m in ms :: WellNamed(m.value)
  }

  // ----- nesting depth, a termination measure that sorting keeps

  function Depth(t: Json): nat {
    match t
    case Array(xs) => 1 + ItemsDepth(xs)
    case Object(ms) => 1 + MembersDepth(ms)
    case _ => 0
  }

  function Max(a: nat, b: nat): nat {
    if a < b then b else a
  }

  function ItemsDepth(xs: seq<Json>): nat {
    if xs == [] then 0 else Max(Depth(xs[0]), ItemsDepth(xs[1..]))
  }

  function MembersDepth(ms: seq<Member>): nat {
    if ms == [] then 0 else Max(Depth(ms[0].value), MembersDepth(ms[1..]))
  }

  lemma {:induction false} MembersDepthBound(ms: seq<Member>, d: nat)
    ensures MembersDepth(ms) <= d <==> forall m | m in ms :: Depth(m.value) <= d
  {
    if ms != [] {
      MembersDepthBound(ms[1..], d);
      assert ms == [ms[0]] + ms[1..];
    }
  }

  lemma SortFacts(ms: seq<Member>)
    ensures multiset(SortMembers(ms)) == multiset(ms) && |SortMembers(ms)| == |ms|
    ensures forall m :: m in SortMembers(ms) <==> m in ms
    ensures MembersDepth(SortMembers(ms)) == MembersDepth(ms)
    ensures AllWellNamed(ms) ==> AllWellNamed(SortMembers(ms)) && StrictlySorted(SortMembers(ms), Folded)
  {
    var t := SortMembers(ms);
    SortPermutes(ms, Folded);
    assert forall m :: m in t <==> m in multiset(t);
    assert forall m :: m in ms <==> m in multiset(ms);
    MembersDepthBound(t, MembersDepth(ms));
    MembersDepthBound(ms, MembersDepth(ms));
    MembersDepthBound(t, MembersDepth(t));
    MembersDepthBound(ms, MembersDepth(t));
    if AllWellNamed(ms) {
      SortDistinct(ms, Folded);
    }
  }

  // ----- meaning

  /** A JSON value as RFC 8259 describes it: an object is an unordered collection of named values. */
  datatype Value =
    | VNull
    | VFalse
    | VTrue
    | VNumber(d: real)
    | VString(s: CString)
    | VArray(items: seq<Value>)
    | VObject(fields: map<CString, Value>)

  /** How a name counts: ignoring ASCII case, or as it is written. */
  datatype Naming = IgnoreCase | Exact

  function Label(name: CString, n: Naming): CString {
    if n.Exact? then name else LowerAll(name)
  }

  function Meaning(t: Json, n: Naming): Value {
    match t
    case Null => VNull
    case False => VFalse
    case True => VTrue
    case Number(d) => VNumber(d)
    case String(s) => VString(s)
    case Array(xs) => VArray(ItemsMeaning(xs, n))
    case Object(ms) => VObject(FieldsMeaning(ms, n))
  }

  function ItemsMeaning(xs: seq<Json>, n: Naming): (r: seq<Value>)
    ensures |r| == |xs|
  {
    if xs == [] then [] else [Meaning(xs[0], n)] + ItemsMeaning(xs[1..], n)
  }

  lemma {:induction false} ItemMeaning(xs: seq<Json>, i: nat, n: Naming)
    requires i < |xs|
    ensures ItemsMeaning(xs, n)[i] == Meaning(xs[i], n)
  {
    if i > 0 {
      ItemMeaning(xs[1..], i - 1, n);
    }
  }

  /** Of two members with one label the first counts, as for `cJSON_GetObjectItem`. */
  function FieldsMeaning(ms: seq<Member>, n: Naming): map<CString, Value> {
    if ms == [] then map[]
    else FieldsMeaning(ms[1..], n)[Label(ms[0].name, n) := Meaning(ms[0].value, n)]
  }

  lemma {:induction false} FieldNames(ms: seq<Member>, n: Naming)
    ensures forall k :: k in FieldsMeaning(ms, n) <==> exists m :: m in ms && Label(m.name, n) == k
  {
    if ms != [] {
      FieldNames(ms[1..], n);
      assert ms == [ms[0]] + ms[1..];
    }
  }

  /** Equal up to member order and the case of names. */
  ghost predicate Equivalent(a: Json, b: Json) {
    Meaning(a, IgnoreCase) == Meaning(b, IgnoreCase)
  }

  /** Equal up to member order. */
  ghost predicate Reordered(a: Json, b: Json) {
    Meaning(a, Exact) == Meaning(b, Exact)
  }

  /** With distinct names every member gives the value of its own label. */
  lemma {:induction false} FieldAt(ms: seq<Member>, i: nat, n: Naming)
    requires Distinct(ms, Folded) && i < |ms|
    ensures Label(ms[i].name, n) in FieldsMeaning(ms, n)
    ensures FieldsMeaning(ms, n)[Label(ms[i].name, n)] == Meaning(ms[i].value, n)
  {
    if i > 0 {
      FieldAt(ms[1..], i - 1, n);
      assert Folded(ms[0]) != Folded(ms[i]);
    }
  }

  lemma FieldOf(ms: seq<Member>, m: Member, n: Naming)
    requires Distinct(ms, Folded) && m in ms
    ensures Label(m.name, n) in FieldsMeaning(ms, n)
    ensures FieldsMeaning(ms, n)[Label(m.name, n)] == Meaning(m.value, n)
  {
    var i :| 0 <= i < |ms| && ms[i] == m;
    FieldAt(ms, i, n);
  }

  lemma MemberOf(ms: seq<Member>, k: CString, n: Naming) returns (m: Member)
    requires Distinct(ms, Folded) && k in FieldsMeaning(ms, n)
    ensures m in ms && Label(m.name, n) == k && FieldsMeaning(ms, n)[k] == Meaning(m.value, n)
  {
    FieldNames(ms, n);
    m :| m in ms && Label(m.name, n) == k;
    FieldOf(ms, m, n);
  }

  lemma FieldsWithin(s: seq<Member>, t: seq<Member>, k: CString, n: Naming)
    requires multiset(s) == multiset(t) && Distinct(s, Folded) && Distinct(t, Folded) && k in FieldsMeaning(s, n)
    ensures k in FieldsMeaning(t, n) && FieldsMeaning(t, n)[k] == FieldsMeaning(s, n)[k]
  {
    var m := MemberOf(s, k, n);
    assert m in multiset(s);
    FieldOf(t, m, n);
  }

  lemma PermutationMeaning(s: seq<Member>, t: seq<Member>, n: Naming)
    requires multiset(s) == multiset(t) && Distinct(s, Folded)
    ensures FieldsMeaning(s, n) == FieldsMeaning(t, n)
  {
    hide FieldsMeaning;
    PermutationDistinct(s, t, Folded);
    var f, g := FieldsMeaning(s, n), FieldsMeaning(t, n);
    forall k | k in f ensures k in g && g[k] == f[k] {
      FieldsWithin(s, t, k, n);
    }
    forall k | k in g ensures k in f {
      FieldsWithin(t, s, k, n);
    }
  }

  /** Sorting the members of an object keeps its meaning. */
  lemma SortMeaning(ms: seq<Member>, n: Naming)
    requires Distinct(ms, Folded)
    ensures FieldsMeaning(SortMembers(ms), n) == FieldsMeaning(ms, n)
  {
    SortPermutes(ms, Folded);
    PermutationMeaning(ms, SortMembers(ms), n);
  }
}
