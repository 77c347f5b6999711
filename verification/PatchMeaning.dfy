/**
 * What each operation of a JSON Patch does to a document, stated on the bytes of its members and the places that its
 * pointers lead to, and that applying a patch does exactly this.
 */
module PatchMeaning {
  import opened Bytes
  import opened Comparing
  import opened Decimals
  import opened Likeness
  import opened Members
  import opened Numerals
  import opened Options
  import opened Patching
  import opened PointerPlaces
  import opened Pointers
  import opened Trees

  // ----- members and tokens

  /** Member `i` is the first of its name, ignoring ASCII case. */
  predicate First(ms: seq<Member>, i: nat, name: CString) {
    i < |ms| && SameName(ms[i].name, name) && forall j | 0 <= j < i :: !SameName(ms[j].name, name)
  }

  predicate Has(t: Json, name: CString, v: Json) {
    t.Object? && exists i | 0 <= i < |t.members| :: First(t.members, i, name) && t.members[i].value == v
  }

  predicate Lacks(t: Json, name: CString) {
    t.Object? ==> forall m | m in t.members :: !SameName(m.name, name)
  }

  /** The path to the parent, and the last token behind the last slash. */
  predicate Splits(path: CString, up: CString, token: CString) {
    path == up + [47] + token && 47 !in token
  }

  /** What the code takes a last token to spell: a tilde and any byte but `0` are a slash. */
  predicate Unescapes(token: CString, name: CString) {
    if token == [] then name == []
    else if token[0] == 126 then
      |token| >= 2 && name != [] && name[0] == (if token[1] == 48 then 126 else 47) && Unescapes(token[2..], name[1..])
    else name != [] && name[0] == token[0] && Unescapes(token[1..], name[1..])
  }

  /** The index that the code takes a name for: white space, a sign, digits, and anything after that. */
  ghost predicate Counts(name: CString, i: nat) {
    exists spaces: CString, sign: CString, digits: CString, post: CString ::
      && name == spaces + sign + digits + post && Numeral(spaces, sign, digits, post)
      && i == if sign == [45] then 0 else Weight(digits)
  }

  // ----- children that go and come

  /** `t` is `s` without item `i`. */
  ghost predicate Dropped<T(!new)>(s: seq<T>, i: nat, t: seq<T>) {
    i < |s| && |t| == |s| - 1 && (forall k | 0 <= k < i :: t[k] == s[k]) && forall k | i <= k < |t| :: t[k] == s[k + 1]
  }

  /** `t` is `s` with `x` before item `i`, or at its end. */
  ghost predicate Inserted<T(!new)>(s: seq<T>, i: nat, x: T, t: seq<T>) {
    && i <= |s| && |t| == |s| + 1 && t[i] == x
    && (forall k | 0 <= k < i :: t[k] == s[k]) && forall k | i <= k < |s| :: t[k + 1] == s[k]
  }

  /** The child of that name or index leaves its parent. */
  ghost predicate Taken(parent: Json, name: CString, item: Json, rest: Json) {
    match parent
    case Array(xs) => rest.Array? && exists i: nat :: Counts(name, i) && Dropped(xs, i, rest.items) && item == xs[i]
    case Object(ms) =>
      rest.Object? && exists i: nat :: First(ms, i, name) && Dropped(ms, i, rest.members) && item == ms[i].value
    case _ => false
  }

  ghost predicate Missing(parent: Json, name: CString) {
    match parent
    case Array(xs) => exists i: nat :: Counts(name, i) && i >= |xs|
    case _ => Lacks(parent, name)
  }

  /**
   * A value joins its parent: in an array at the end for `-`, else before the item of that index, or at the end when
   * there is none; in an object at the end, after the first member of that name has gone.
   */
  ghost predicate Put(parent: Json, name: CString, v: Json, after: Json) {
    match parent
    case Array(xs) =>
      && after.Array?
      && if name == [45] then Inserted(xs, |xs|, v, after.items)
         else exists i: nat :: Counts(name, i) && Inserted(xs, if i < |xs| then i else |xs|, v, after.items)
    case Object(ms) =>
      && after.Object?
      && exists rest: seq<Member> :: Renamed(ms, name, rest) && Inserted(rest, |rest|, Member(name, v), after.members)
    case _ => after == parent
  }

  /** The members without the first of that name. */
  ghost predicate Renamed(ms: seq<Member>, name: CString, rest: seq<Member>) {
    (Lacks(Object(ms), name) && rest == ms) || exists i: nat :: First(ms, i, name) && Dropped(ms, i, rest)
  }

  /** The documents differ at most at and below the node at `p`. */
  ghost predicate OnlyAt(a: Json, b: Json, p: Position) {
    p == [] ||
    (&& SameType(a, b) && p[0] < Children(a) == Children(b)
     && (a.Object? ==> forall i | 0 <= i < |a.members| :: a.members[i].name == b.members[i].name)
     && (forall i | 0 <= i < Children(a) && i != p[0] :: Child(a, i) == Child(b, i))
     && OnlyAt(Child(a, p[0]), Child(b, p[0]), p[1..]))
  }

  // ----- what the operations do

  ghost predicate Nowhere(doc: Json, path: CString) {
    forall p :: !Leads(doc, path, p)
  }

  /** The child that `path` names, below the node at `p`. */
  ghost predicate Points(doc: Json, path: CString, p: Position, name: CString) {
    && ValidPosition(doc, p)
    && exists up: CString, token: CString :: Splits(path, up, token) && Unescapes(token, name) && Leads(doc, up, p)
  }

  /** The path is a parent's, a slash, and a last token that can be decoded. */
  ghost predicate Usable(path: CString) {
    exists up: CString, token: CString, name: CString :: Splits(path, up, token) && Unescapes(token, name)
  }

  ghost predicate Orphan(doc: Json, path: CString) {
    Usable(path) && forall p, name :: !Points(doc, path, p, name)
  }

  /** `item` leaves the document, and nothing else changes. */
  ghost predicate Takes(doc: Json, path: CString, item: Json, d: Json) {
    exists p: Position, name: CString ::
      && Points(doc, path, p, name) && ValidPosition(d, p) && OnlyAt(doc, d, p)
      && Taken(Subtree(doc, p), name, item, Subtree(d, p))
  }

  /** There is nothing at the path. */
  ghost predicate Empty(doc: Json, path: CString) {
    Orphan(doc, path) ||
    exists p: Position, name: CString :: Points(doc, path, p, name) && Missing(Subtree(doc, p), name)
  }

  /** Something leaves, or there is nothing to leave. */
  ghost predicate Clears(doc: Json, path: CString, d: Json) {
    (exists item :: Takes(doc, path, item, d)) || (Empty(doc, path) && d == doc)
  }

  /** `v` joins the document, and nothing else changes; without a parent nothing changes and the code is 9. */
  ghost predicate Adds(doc: Json, path: CString, v: Json, d: Json, code: int) {
    || (code == 9 && d == doc && Orphan(doc, path))
    || (code == 0 && exists p: Position, name: CString ::
          && Points(doc, path, p, name) && ValidPosition(d, p) && OnlyAt(doc, d, p)
          && Put(Subtree(doc, p), name, v, Subtree(d, p)))
  }

  /** The node at the path is compared with `v`; comparing may reorder members there. */
  ghost predicate Answers(doc: Json, path: CString, v: Json, d: Json, code: int) {
    exists p: Position ::
      && Leads(doc, path, p) && ValidPosition(doc, p) && ValidPosition(d, p) && OnlyAt(doc, d, p)
      && (WellNamed(doc) && WellNamed(v) ==>
            (code == 0 <==> Alike(Subtree(doc, p), v)) && Reordered(d, doc) && WellNamed(d))
  }

  /** What a patch with this operation and path leaves, and its code. */
  ghost predicate Does(doc: Json, op: CString, path: CString, patch: Json, d: Json, code: int) {
    // "test"
    if op == [116, 101, 115, 116] then
      exists v :: Has(patch, [118, 97, 108, 117, 101], v) && Answers(doc, path, v, d, code)
    // "remove"
    else if op == [114, 101, 109, 111, 118, 101] then code == 0 && Clears(doc, path, d)
    // "replace"
    else if op == [114, 101, 112, 108, 97, 99, 101] then
      exists m :: Clears(doc, path, m) && AddsValue(m, path, patch, d, code)
    // "move"
    else if op == [109, 111, 118, 101] then
      || (Lacks(patch, [102, 114, 111, 109]) && d == doc && code == 4)
      || exists from: CString :: Has(patch, [102, 114, 111, 109], String(from)) && Moves(doc, from, path, d, code)
    // "copy"
    else if op == [99, 111, 112, 121] then
      || (Lacks(patch, [102, 114, 111, 109]) && d == doc && code == 4)
      || exists from: CString :: Has(patch, [102, 114, 111, 109], String(from)) && Copies(doc, from, path, d, code)
    // "add"
    else if op == [97, 100, 100] then AddsValue(doc, path, patch, d, code)
    else Unknown(op) && d == doc && code == 3
  }

  predicate Unknown(op: CString) {
    && op != [116, 101, 115, 116] && op != [114, 101, 109, 111, 118, 101] && op != [114, 101, 112, 108, 97, 99, 101]
    && op != [109, 111, 118, 101] && op != [99, 111, 112, 121] && op != [97, 100, 100]
  }

  ghost predicate AddsValue(doc: Json, path: CString, patch: Json, d: Json, code: int) {
    || (Lacks(patch, [118, 97, 108, 117, 101]) && d == doc && code == 7)
    || exists v :: Has(patch, [118, 97, 108, 117, 101], v) && Adds(doc, path, v, d, code)
  }

  ghost predicate Moves(doc: Json, from: CString, path: CString, d: Json, code: int) {
    || (Empty(doc, from) && d == doc && code == 5)
    || exists item, m :: Takes(doc, from, item, m) && Adds(m, path, item, d, code)
  }

  ghost predicate Copies(doc: Json, from: CString, path: CString, d: Json, code: int) {
    || (Nowhere(doc, from) && d == doc && code == 5)
    || exists p :: Leads(doc, from, p) && ValidPosition(doc, p) && Adds(doc, path, Subtree(doc, p), d, code)
  }

  /** A patch without "op" or "path" changes nothing and gives 2. */
  ghost predicate Obeys(doc: Json, patch: Json, d: Json, code: int) {
    if Lacks(patch, [111, 112]) || Lacks(patch, [112, 97, 116, 104]) then d == doc && code == 2
    else
      exists op: CString, path: Json :: Has(patch, [111, 112], String(op)) && Has(patch, [112, 97, 116, 104], path) &&
        if path.String? then Does(doc, op, path.s, patch, d, code) else Unknown(op) && d == doc && code == 3
  }

  // ----- the code's functions in these terms

  lemma HasItem(t: Json, name: CString, v: Json)
    ensures Has(t, name, v) <==> GetItem(t, name) == Some(v)
    ensures Lacks(t, name) <==> GetItem(t, name).None?
  {
    if t.Object? {
      FindsSameName(t.members, name);
      var i := FindName(t.members, name);
      if i < |t.members| {
        assert First(t.members, i, name);
      }
    }
  }

  lemma FirstFound(ms: seq<Member>, i: nat, name: CString)
    ensures First(ms, i, name) <==> i == FindName(ms, name) && i < |ms|
    ensures Lacks(Object(ms), name) <==> FindName(ms, name) == |ms|
  {
    FindsSameName(ms, name);
    if FindName(ms, name) < |ms| {
      assert First(ms, FindName(ms, name), name);
    }
  }

  lemma {:induction false} UnescapesDecodes(token: CString, name: CString)
    ensures Unescapes(token, name) <==> DecodeName(token) == Some(name)
    decreases |token|
  {
    if token != [] && (token[0] == 126 ==> |token| >= 2) {
      var rest := token[if token[0] == 126 then 2 else 1..];
      if name != [] {
        UnescapesDecodes(rest, name[1..]);
        assert name == [name[0]] + name[1..];
      }
    }
  }

  lemma {:induction false} LastSlashAt(path: CString, up: CString, token: CString)
    requires Splits(path, up, token)
    ensures LastSlash(path) == |up| && path[|up| + 1..] == token && path[..|up|] == up
  {
    assert path[|up|] == 47;
    forall m | |up| < m < |path|
      ensures path[m] != 47
    {
      assert path[m] == token[m - |up| - 1];
    }
  }

  /** Splitting a path finds the parent's path and the decoded last token. */
  lemma SplitMeans(path: CString)
    ensures SplitPath(path).None? <==> !Usable(path)
    ensures forall up, token, name | Splits(path, up, token) && Unescapes(token, name) ::
      SplitPath(path) == Some((up, name))
    ensures SplitPath(path).Some? ==>
      exists token :: Splits(path, SplitPath(path).value.0, token) && Unescapes(token, SplitPath(path).value.1)
  {
    forall up, token, name | Splits(path, up, token) && Unescapes(token, name)
      ensures SplitPath(path) == Some((up, name))
    {
      LastSlashAt(path, up, token);
      UnescapesDecodes(token, name);
    }
    if SplitPath(path).Some? {
      var k := LastSlash(path);
      var token := path[k + 1..];
      assert path == path[..k] + [47] + token;
      assert 47 !in token;
      UnescapesDecodes(token, SplitPath(path).value.1);
      assert Splits(path, path[..k], token);
    }
  }

  lemma CountsSteps(name: CString, i: nat)
    ensures Counts(name, i) <==> i == Steps(Atoi(name))
  {
    if Counts(name, i) {
      var spaces: CString, sign: CString, digits: CString, post: CString :|
        && name == spaces + sign + digits + post && Numeral(spaces, sign, digits, post)
        && i == if sign == [45] then 0 else Weight(digits);
      AtoiReads(spaces, sign, digits, post);
    }
    var spaces, sign, digits, post := NumeralOf(name);
    AtoiReads(spaces, sign, digits, post);
    assert Counts(name, if sign == [45] then 0 else Weight(digits));
  }

  lemma RemoveDrops<T(!new)>(s: seq<T>, i: nat)
    requires i < |s|
    ensures Dropped(s, i, Remove(s, i))
  {}

  lemma InsertInserts<T(!new)>(s: seq<T>, i: nat, x: T)
    ensures Inserted(s, if i < |s| then i else |s|, x, Insert(s, i, x)) && Inserted(s, |s|, x, s + [x])
  {}

  /** Replacing a node changes nothing outside of it. */
  lemma {:induction false} SetOnly(t: Json, p: Position, v: Json)
    requires ValidPosition(t, p)
    ensures var d := SetSubtree(t, p, v);
      ValidPosition(d, p) && Subtree(d, p) == v && OnlyAt(t, d, p)
    decreases |p|
  {
    if p != [] {
      SetOnly(Child(t, p[0]), p[1..], v);
      ChildSet(t, p[0], SetSubtree(Child(t, p[0]), p[1..], v));
    }
  }

  lemma ChildSet(t: Json, i: nat, c: Json)
    requires i < Children(t)
    ensures var d := SetChild(t, i, c);
      && SameType(t, d) && Children(d) == Children(t) && Child(d, i) == c
      && (t.Object? ==> forall k | 0 <= k < |t.members| :: t.members[k].name == d.members[k].name)
      && forall k | 0 <= k < Children(t) && k != i :: Child(t, k) == Child(d, k)
  {}

  // ----- parents and children

  lemma RemoveTakes(parent: Json, name: CString)
    ensures parent.Array? && Steps(Atoi(name)) < |parent.items| ==>
      Taken(parent, name, parent.items[Steps(Atoi(name))], Array(Remove(parent.items, Steps(Atoi(name)))))
    ensures parent.Array? && Steps(Atoi(name)) >= |parent.items| ==> Missing(parent, name)
    ensures parent.Object? && FindName(parent.members, name) < |parent.members| ==>
      Taken(parent, name, parent.members[FindName(parent.members, name)].value, Object(Without(parent.members, name)))
    ensures parent.Object? && FindName(parent.members, name) == |parent.members| ==> Missing(parent, name)
    ensures !parent.Container() ==> Missing(parent, name)
  {
    hide Counts, First, Dropped, Remove;
    match parent
    case Array(xs) =>
      var i := Steps(Atoi(name));
      CountsSteps(name, i);
      if i < |xs| {
        RemoveDrops(xs, i);
        assert Counts(name, i) && Dropped(xs, i, Remove(xs, i));
      }
    case Object(ms) =>
      var i := FindName(ms, name);
      FirstFound(ms, i, name);
      if i < |ms| {
        RemoveDrops(ms, i);
        assert First(ms, i, name) && Dropped(ms, i, Remove(ms, i));
      }
    case _ =>
  }

  lemma AddPuts(parent: Json, name: CString, v: Json)
    ensures Put(parent, name, v, AddChild(parent, name, v))
  {
    hide Counts, First, Dropped, Inserted, Remove, Insert;
    match parent
    case Array(xs) =>
      var i := Steps(Atoi(name));
      CountsSteps(name, i);
      InsertInserts(xs, i, v);
    case Object(ms) =>
      var i := FindName(ms, name);
      FirstFound(ms, i, name);
      if i < |ms| {
        RemoveDrops(ms, i);
        assert First(ms, i, name) && Dropped(ms, i, Remove(ms, i));
      } else {
        NothingRemoved(ms);
      }
      assert Renamed(ms, name, Without(ms, name));
      InsertInserts(Without(ms, name), 0, Member(name, v));
    case _ =>
  }

  lemma NothingRemoved(ms: seq<Member>)
    ensures Remove(ms, |ms|) == ms
  {}

  lemma MissingHasNone(parent: Json, name: CString)
    requires Missing(parent, name)
    ensures parent.Array? ==> Steps(Atoi(name)) >= |parent.items|
    ensures parent.Object? ==> FindName(parent.members, name) == |parent.members|
  {
    hide Counts, First;
    if parent.Array? {
      var i: nat :| Counts(name, i) && i >= |parent.items|;
      CountsSteps(name, i);
    } else if parent.Object? {
      FirstFound(parent.members, 0, name);
    }
  }

  // ----- operations

  /** Where the split path points. */
  lemma PointsAt(doc: Json, path: CString)
    requires SplitPath(path).Some?
    ensures Usable(path)
    ensures var (up, name) := SplitPath(path).value;
      && (GetPointer(doc, up).Some? ==> Points(doc, path, GetPointer(doc, up).value, name))
      && (GetPointer(doc, up).None? ==> Orphan(doc, path))
    ensures forall p, n | Points(doc, path, p, n) ::
      GetPointer(doc, SplitPath(path).value.0) == Some(p) && SplitPath(path).value.1 == n
  {
    hide SplitPath, Splits, Unescapes, Leads, GetPointer;
    SplitMeans(path);
    var (up, name) := SplitPath(path).value;
    forall p ensures GetPointer(doc, up) == Some(p) <==> Leads(doc, up, p) {
      GetPointerLeads(doc, up, p);
    }
  }

  lemma DetachMeans(doc: Json, path: CString)
    ensures PatchDetach(doc, path).Crash? <==> !Usable(path)
    ensures var r := PatchDetach(doc, path);
      r.Detached? ==>
        && (r.item.None? <==> Empty(doc, path)) && (r.item.None? ==> r.doc == doc)
        && (r.item.Some? ==> Takes(doc, path, r.item.value, r.doc))
  {
    hide SplitPath, Usable, Points, Orphan, OnlyAt, Taken, Missing, GetPointer, Subtree, SetSubtree, Remove;
    SplitMeans(path);
    if SplitPath(path).Some? {
      var (up, name) := SplitPath(path).value;
      PointsAt(doc, path);
      var at := GetPointer(doc, up);
      if at.Some? {
        DetachAt(doc, path, at.value, name);
      }
      if Orphan(doc, path) && at.Some? {
        OrphanHasNone(doc, path, at.value, name);
      }
    }
  }

  lemma OrphanHasNone(doc: Json, path: CString, p: Position, name: CString)
    ensures Orphan(doc, path) ==> !Points(doc, path, p, name)
  {}

  /** Detaching below the parent at `p`. */
  lemma DetachAt(doc: Json, path: CString, p: Position, name: CString)
    requires ValidPosition(doc, p) && Points(doc, path, p, name)
    requires forall q, n | Points(doc, path, q, n) :: q == p && n == name
    requires SplitPath(path).Some? && SplitPath(path).value.1 == name
    requires GetPointer(doc, SplitPath(path).value.0) == Some(p)
    ensures var r := PatchDetach(doc, path);
      && r.Detached? && (r.item.None? ==> r.doc == doc)
      && (r.item.None? <==> Missing(Subtree(doc, p), name))
      && (r.item.Some? ==> Takes(doc, path, r.item.value, r.doc))
  {
    hide SplitPath, Points, OnlyAt, Taken, GetPointer, Missing, Remove;
    var parent := Subtree(doc, p);
    RemoveTakes(parent, name);
    if Missing(parent, name) {
      MissingHasNone(parent, name);
    }
    var r := PatchDetach(doc, path);
    if r.Detached? && r.item.Some? {
      var rest := if parent.Array? then Array(Remove(parent.items, Steps(Atoi(name))))
                  else Object(Without(parent.members, name));
      SetOnly(doc, p, rest);
      assert Taken(parent, name, r.item.value, rest);
    }
  }

  lemma AddMeans(doc: Json, path: CString, v: Json)
    ensures DoAdd(doc, path, v).Applied? <==> Usable(path)
    ensures var r := DoAdd(doc, path, v); r.Applied? ==> Adds(doc, path, v, r.doc, r.code)
  {
    hide SplitPath, Usable, Points, Orphan, OnlyAt, Put, GetPointer, Subtree, SetSubtree, AddChild;
    SplitMeans(path);
    if SplitPath(path).Some? {
      var (up, name) := SplitPath(path).value;
      PointsAt(doc, path);
      var at := GetPointer(doc, up);
      if at.Some? {
        var after := AddChild(Subtree(doc, at.value), name, v);
        AddPuts(Subtree(doc, at.value), name, v);
        SetOnly(doc, at.value, after);
      }
    }
  }

  // ----- reordering below a node

  lemma {:induction false} ItemReordered(xs: seq<Json>, i: nat, c: Json)
    requires i < |xs| && Reordered(c, xs[i])
    ensures ItemsMeaning(xs[i := c], Exact) == ItemsMeaning(xs, Exact)
  {
    if i > 0 {
      ItemReordered(xs[1..], i - 1, c);
      assert xs[i := c][1..] == xs[1..][i - 1 := c];
    } else {
      assert xs[i := c][1..] == xs[1..];
    }
  }

  lemma {:induction false} ItemStaysNamed(xs: seq<Json>, i: nat, c: Json)
    requires i < |xs| && ItemsWellNamed(xs) && WellNamed(c)
    ensures ItemsWellNamed(xs[i := c])
  {
    if i > 0 {
      ItemStaysNamed(xs[1..], i - 1, c);
      assert xs[i := c][1..] == xs[1..][i - 1 := c];
    } else {
      assert xs[i := c][1..] == xs[1..];
    }
  }

  lemma {:induction false} MemberReordered(ms: seq<Member>, i: nat, c: Json)
    requires i < |ms| && Reordered(c, ms[i].value)
    ensures FieldsMeaning(ms[i := ms[i].(value := c)], Exact) == FieldsMeaning(ms, Exact)
  {
    var r := ms[i := ms[i].(value := c)];
    if i > 0 {
      MemberReordered(ms[1..], i - 1, c);
      assert r[1..] == ms[1..][i - 1 := ms[i].(value := c)];
    } else {
      assert r[1..] == ms[1..];
    }
  }

  lemma ChildReordered(t: Json, i: nat, c: Json)
    requires WellNamed(t) && i < Children(t) && Reordered(c, Child(t, i)) && WellNamed(c)
    ensures Reordered(SetChild(t, i, c), t) && WellNamed(SetChild(t, i, c))
  {
    match t
    case Array(xs) =>
      ItemReordered(xs, i, c);
      ItemStaysNamed(xs, i, c);
    case Object(ms) =>
      MemberReordered(ms, i, c);
      UpdateDistinct(ms, i, c);
  }

  lemma {:induction false} NodeReordered(t: Json, p: Position, c: Json)
    requires WellNamed(t) && ValidPosition(t, p) && WellNamed(c) && Reordered(c, Subtree(t, p))
    ensures Reordered(SetSubtree(t, p, c), t) && WellNamed(SetSubtree(t, p, c))
    decreases |p|
  {
    if p != [] {
      ChildWellNamed(t, p[0]);
      NodeReordered(Child(t, p[0]), p[1..], c);
      ChildReordered(t, p[0], SetSubtree(Child(t, p[0]), p[1..], c));
    }
  }

  /** A "test" answers 0 exactly when the node is like the value, and reorders members at most. */
  lemma TestMeans(doc: Json, path: CString, v: Json)
    ensures DoTest(doc, path, Some(v)).Applied? <==> !Nowhere(doc, path)
    ensures var r := DoTest(doc, path, Some(v)); r.Applied? ==> Answers(doc, path, v, r.doc, r.code)
  {
    hide OnlyAt, GetPointer, Leads, Subtree, SetSubtree, Compare, Alike, Reordered, WellNamed;
    forall p ensures GetPointer(doc, path) == Some(p) <==> Leads(doc, path, p) {
      GetPointerLeads(doc, path, p);
    }
    var at := GetPointer(doc, path);
    if at.Some? {
      assert Leads(doc, path, at.value);
      TestAt(doc, at.value, v);
    }
  }

  lemma TestAt(doc: Json, p: Position, v: Json)
    requires ValidPosition(doc, p)
    ensures var r := Compare(Subtree(doc, p), v);
      var d := SetSubtree(doc, p, r.a);
      && ValidPosition(d, p) && OnlyAt(doc, d, p)
      && (WellNamed(doc) && WellNamed(v) ==>
            (r.code == 0 <==> Alike(Subtree(doc, p), v)) && Reordered(d, doc) && WellNamed(d))
  {
    hide OnlyAt, Compare, Alike, Reordered, WellNamed;
    var r := Compare(Subtree(doc, p), v);
    SetOnly(doc, p, r.a);
    if WellNamed(doc) && WellNamed(v) {
      SubtreeNamed(doc, p);
      CompareLikeness(Subtree(doc, p), v);
      CompareReorders(Subtree(doc, p), v);
      NodeReordered(doc, p, r.a);
    }
  }

  lemma {:induction false} SubtreeNamed(t: Json, p: Position)
    requires WellNamed(t) && ValidPosition(t, p)
    ensures WellNamed(Subtree(t, p))
    decreases |p|
  {
    if p != [] {
      ChildWellNamed(t, p[0]);
      SubtreeNamed(Child(t, p[0]), p[1..]);
    }
  }

  // ----- whole patches

  lemma LiteralNames()
    ensures OP == [111, 112] && PATH == [112, 97, 116, 104] && VALUE == [118, 97, 108, 117, 101]
    ensures FROM == [102, 114, 111, 109]
    ensures ADD == [97, 100, 100] && REMOVE == [114, 101, 109, 111, 118, 101]
    ensures REPLACE == [114, 101, 112, 108, 97, 99, 101] && MOVE == [109, 111, 118, 101]
    ensures COPY == [99, 111, 112, 121] && TEST == [116, 101, 115, 116]
  {}

  /** What a patch asks for, by its members. */
  lemma ReadsPatch(patch: Json, v: Json)
    ensures Has(patch, [111, 112], v) <==> GetItem(patch, OP) == Some(v)
    ensures Has(patch, [112, 97, 116, 104], v) <==> GetItem(patch, PATH) == Some(v)
    ensures Has(patch, [118, 97, 108, 117, 101], v) <==> GetItem(patch, VALUE) == Some(v)
    ensures Has(patch, [102, 114, 111, 109], v) <==> GetItem(patch, FROM) == Some(v)
    ensures Lacks(patch, [111, 112]) <==> GetItem(patch, OP).None?
    ensures Lacks(patch, [112, 97, 116, 104]) <==> GetItem(patch, PATH).None?
    ensures Lacks(patch, [118, 97, 108, 117, 101]) <==> GetItem(patch, VALUE).None?
    ensures Lacks(patch, [102, 114, 111, 109]) <==> GetItem(patch, FROM).None?
  {
    hide GetItem, Has, Lacks;
    HasItem(patch, OP, v);
    HasItem(patch, PATH, v);
    HasItem(patch, VALUE, v);
    HasItem(patch, FROM, v);
  }

  lemma AddValueMeans(doc: Json, path: CString, patch: Json)
    ensures var v := GetItem(patch, VALUE);
      var r := if v.None? then Applied(doc, 7) else DoAdd(doc, path, v.value);
      && (r.Applied? <==> v.None? || Usable(path))
      && (r.Applied? ==> AddsValue(doc, path, patch, r.doc, r.code))
  {
    hide GetItem, Has, Lacks, DoAdd, Usable, Adds;
    var v := GetItem(patch, VALUE);
    ReadsPatch(patch, if v.Some? then v.value else Null);
    if v.Some? {
      AddMeans(doc, path, v.value);
    }
  }

  lemma ReplaceMeans(doc: Json, path: CString, patch: Json)
    ensures var r := DoReplace(doc, path, GetItem(patch, VALUE));
      && (r.Applied? <==> Usable(path))
      && (r.Applied? ==> exists m :: Clears(doc, path, m) && AddsValue(m, path, patch, r.doc, r.code))
  {
    hide GetItem, DoAdd, PatchDetach, Usable, Takes, Empty, AddsValue;
    DetachMeans(doc, path);
    var d := PatchDetach(doc, path);
    if d.Detached? {
      AddValueMeans(d.doc, path, patch);
      assert Clears(doc, path, d.doc);
    }
  }

  lemma MoveMeans(doc: Json, path: CString, from: CString)
    ensures var r := DoMove(doc, path, Some(String(from)));
      && (r.Applied? <==> Usable(from) && (Empty(doc, from) || Usable(path)))
      && (r.Applied? ==> Moves(doc, from, path, r.doc, r.code))
  {
    hide DoAdd, PatchDetach, Usable, Takes, Empty, Adds;
    DetachMeans(doc, from);
    var d := PatchDetach(doc, from);
    if d.Detached? && d.item.Some? {
      AddMeans(d.doc, path, d.item.value);
    }
  }

  lemma CopyMeans(doc: Json, path: CString, from: CString)
    ensures var r := DoCopy(doc, path, Some(String(from)));
      && (r.Applied? <==> Nowhere(doc, from) || Usable(path))
      && (r.Applied? ==> Copies(doc, from, path, r.doc, r.code))
  {
    hide DoAdd, GetPointer, Leads, Usable, Adds;
    forall p ensures GetPointer(doc, from) == Some(p) <==> Leads(doc, from, p) {
      GetPointerLeads(doc, from, p);
    }
    var at := GetPointer(doc, from);
    if at.Some? {
      assert Leads(doc, from, at.value);
      AddMeans(doc, path, Subtree(doc, at.value));
    }
  }

  /** When an operation with this path does not run into undefined behaviour. */
  ghost predicate Defined(doc: Json, op: CString, path: CString, patch: Json) {
    if op == [116, 101, 115, 116] then
      !Lacks(patch, [118, 97, 108, 117, 101]) && !Nowhere(doc, path)
    else if op == [114, 101, 109, 111, 118, 101] || op == [114, 101, 112, 108, 97, 99, 101] then Usable(path)
    else if op == [109, 111, 118, 101] then
      Lacks(patch, [102, 114, 111, 109]) ||
      exists from: CString :: Has(patch, [102, 114, 111, 109], String(from)) &&
        Usable(from) && (Empty(doc, from) || Usable(path))
    else if op == [99, 111, 112, 121] then
      Lacks(patch, [102, 114, 111, 109]) ||
      exists from: CString :: Has(patch, [102, 114, 111, 109], String(from)) &&
        (Nowhere(doc, from) || Usable(path))
    else if op == [97, 100, 100] then Lacks(patch, [118, 97, 108, 117, 101]) || Usable(path)
    else true
  }

  /** The same for any patch. */
  ghost predicate Sound(doc: Json, patch: Json) {
    || Lacks(patch, [111, 112]) || Lacks(patch, [112, 97, 116, 104])
    || exists op: CString :: Has(patch, [111, 112], String(op)) &&
         (Unknown(op) || DefinedAt(doc, op, patch))
  }

  ghost predicate DefinedAt(doc: Json, op: CString, patch: Json) {
    exists path: CString :: Has(patch, [112, 97, 116, 104], String(path)) && Defined(doc, op, path, patch)
  }

  /** What `ApplyPatch` does once it has read "op" and "path". */
  function Dispatch(doc: Json, op: CString, path: CString, patch: Json): Applied {
    if op == TEST then DoTest(doc, path, GetItem(patch, VALUE))
    else if op == REMOVE then DoRemove(doc, path)
    else if op == REPLACE then DoReplace(doc, path, GetItem(patch, VALUE))
    else if op == MOVE then DoMove(doc, path, GetItem(patch, FROM))
    else if op == COPY then DoCopy(doc, path, GetItem(patch, FROM))
    else if op == ADD then
      if GetItem(patch, VALUE).None? then Applied(doc, 7) else DoAdd(doc, path, GetItem(patch, VALUE).value)
    else Applied(doc, 3)
  }

  lemma TestOp(doc: Json, path: CString, patch: Json)
    ensures var r := DoTest(doc, path, GetItem(patch, VALUE));
      && (r.Applied? <==> !Lacks(patch, [118, 97, 108, 117, 101]) && !Nowhere(doc, path))
      && (r.Applied? ==> exists v :: Has(patch, [118, 97, 108, 117, 101], v) && Answers(doc, path, v, r.doc, r.code))
  {
    hide GetItem, Has, Lacks, Answers, Nowhere;
    var v := GetItem(patch, VALUE);
    ReadsPatch(patch, if v.Some? then v.value else Null);
    if v.Some? {
      TestMeans(doc, path, v.value);
    }
  }

  /** What "from" says is the only string it can say. */
  lemma FromOnce(patch: Json)
    ensures Lacks(patch, [102, 114, 111, 109]) <==> GetItem(patch, FROM).None?
    ensures forall f: CString ::
      Has(patch, [102, 114, 111, 109], String(f)) <==> GetItem(patch, FROM) == Some(String(f))
  {
    hide GetItem, Has, Lacks;
    ReadsPatch(patch, Null);
    forall f: CString ensures Has(patch, [102, 114, 111, 109], String(f)) <==> GetItem(patch, FROM) == Some(String(f)) {
      ReadsPatch(patch, String(f));
    }
  }

  lemma MoveOp(doc: Json, path: CString, patch: Json)
    ensures var r := DoMove(doc, path, GetItem(patch, FROM));
      && (r.Applied? <==> Defined(doc, [109, 111, 118, 101], path, patch))
      && (r.Applied? ==> Does(doc, [109, 111, 118, 101], path, patch, r.doc, r.code))
  {
    hide GetItem, Has, Lacks, PatchDetach, DoAdd, Usable, Empty, Moves;
    FromOnce(patch);
    var from := GetItem(patch, FROM);
    if from.Some? && from.value.String? {
      MoveMeans(doc, path, from.value.s);
    }
  }

  lemma CopyOp(doc: Json, path: CString, patch: Json)
    ensures var r := DoCopy(doc, path, GetItem(patch, FROM));
      && (r.Applied? <==> Defined(doc, [99, 111, 112, 121], path, patch))
      && (r.Applied? ==> Does(doc, [99, 111, 112, 121], path, patch, r.doc, r.code))
  {
    hide GetItem, Has, Lacks, DoAdd, Usable, Nowhere, Copies, GetPointer;
    FromOnce(patch);
    var from := GetItem(patch, FROM);
    if from.Some? && from.value.String? {
      CopyMeans(doc, path, from.value.s);
    }
  }

  lemma RemoveOp(doc: Json, path: CString, patch: Json)
    ensures var r := DoRemove(doc, path);
      && (r.Applied? <==> Defined(doc, [114, 101, 109, 111, 118, 101], path, patch))
      && (r.Applied? ==> Does(doc, [114, 101, 109, 111, 118, 101], path, patch, r.doc, r.code))
  {
    hide PatchDetach, Usable, Takes, Empty;
    DetachMeans(doc, path);
  }

  lemma DispatchMeans(doc: Json, op: CString, path: CString, patch: Json)
    ensures var r := Dispatch(doc, op, path, patch);
      && (r.Applied? <==> Defined(doc, op, path, patch))
      && (r.Applied? ==> Does(doc, op, path, patch, r.doc, r.code))
  {
    hide GetItem, Has, Lacks, DoAdd, PatchDetach, DoMove, DoCopy, DoRemove, DoReplace, DoTest, Usable, Empty, Clears,
         AddsValue, Moves, Copies, Answers, Nowhere;
    LiteralNames();
    if op == TEST {
      TestOp(doc, path, patch);
    } else if op == REMOVE {
      RemoveOp(doc, path, patch);
    } else if op == REPLACE {
      ReplaceMeans(doc, path, patch);
    } else if op == MOVE {
      MoveOp(doc, path, patch);
    } else if op == COPY {
      CopyOp(doc, path, patch);
    } else if op == ADD {
      AddValueMeans(doc, path, patch);
      ReadsPatch(patch, Null);
    }
  }

  lemma OpOnce(patch: Json)
    ensures forall o: CString :: Has(patch, [111, 112], String(o)) <==> GetItem(patch, OP) == Some(String(o))
    ensures forall t :: Has(patch, [112, 97, 116, 104], t) <==> GetItem(patch, PATH) == Some(t)
  {
    hide GetItem, Has, Lacks;
    forall o: CString ensures Has(patch, [111, 112], String(o)) <==> GetItem(patch, OP) == Some(String(o)) {
      ReadsPatch(patch, String(o));
    }
    forall t ensures Has(patch, [112, 97, 116, 104], t) <==> GetItem(patch, PATH) == Some(t) {
      ReadsPatch(patch, t);
    }
  }

  lemma DispatchApplies(doc: Json, patch: Json, op: CString, path: Json)
    requires GetItem(patch, OP) == Some(String(op)) && GetItem(patch, PATH) == Some(path)
    ensures Unknown(op) ==> ApplyPatch(doc, patch) == Applied(doc, 3)
    ensures !Unknown(op) && !path.String? ==> ApplyPatch(doc, patch) == Undefined
    ensures path.String? ==> ApplyPatch(doc, patch) == Dispatch(doc, op, path.s, patch)
  {
    hide GetItem, DoAdd, DoMove, DoCopy, DoRemove, DoReplace, DoTest;
    LiteralNames();
  }

  /**
   * Applying a patch does what its operation means, and is undefined exactly where a member has the wrong type, a
   * "test" has nothing to compare, or a path has no usable last token.
   */
  lemma ApplyObeys(doc: Json, patch: Json)
    ensures var r := ApplyPatch(doc, patch);
      && (r.Applied? <==> Sound(doc, patch))
      && (r.Applied? ==> Obeys(doc, patch, r.doc, r.code))
  {
    hide GetItem, Has, Lacks, Dispatch, ApplyPatch, Does, Defined, Unknown;
    ReadsPatch(patch, Null);
    var op, path := GetItem(patch, OP), GetItem(patch, PATH);
    if op.None? || path.None? {
      NothingToApply(doc, patch);
    } else if op.value.String? {
      KnownObeys(doc, patch, op.value.s, path.value);
    } else {
      OpOnce(patch);
      NotAString(doc, patch);
    }
  }

  lemma KnownObeys(doc: Json, patch: Json, op: CString, path: Json)
    requires GetItem(patch, OP) == Some(String(op)) && GetItem(patch, PATH) == Some(path)
    ensures var r := ApplyPatch(doc, patch);
      && (r.Applied? <==> Sound(doc, patch))
      && (r.Applied? ==> Obeys(doc, patch, r.doc, r.code))
  {
    hide GetItem, Has, Lacks, Dispatch, ApplyPatch, Does, Defined, Unknown;
    ReadsPatch(patch, Null);
    ReadsPatch(patch, String(op));
    ReadsPatch(patch, path);
    DispatchApplies(doc, patch, op, path);
    if path.String? {
      DispatchMeans(doc, op, path.s, patch);
      if Unknown(op) {
        UnknownDefined(doc, op, path.s, patch);
      }
    }
    SoundAt(doc, patch, op, path);
  }

  lemma UnknownDefined(doc: Json, op: CString, path: CString, patch: Json)
    requires Unknown(op)
    ensures Defined(doc, op, path, patch)
  {}

  lemma SoundAt(doc: Json, patch: Json, op: CString, path: Json)
    requires GetItem(patch, OP) == Some(String(op)) && GetItem(patch, PATH) == Some(path)
    ensures Sound(doc, patch) <==> Unknown(op) || (path.String? && Defined(doc, op, path.s, patch))
  {
    hide GetItem, Has, Lacks, Defined, Unknown;
    OpOnce(patch);
    ReadsPatch(patch, Null);
  }

  lemma NothingToApply(doc: Json, patch: Json)
    requires GetItem(patch, OP).None? || GetItem(patch, PATH).None?
    ensures ApplyPatch(doc, patch) == Applied(doc, 2)
  {}

  lemma NotAString(doc: Json, patch: Json)
    requires GetItem(patch, OP).Some? && !GetItem(patch, OP).value.String? && GetItem(patch, PATH).Some?
    ensures ApplyPatch(doc, patch) == Undefined
  {}

  /** Patches are applied one after the other; the first that fails, or is undefined, ends the run. */
  lemma {:induction false} AppliesInOrder(patches: seq<Json>, docs: seq<Json>)
    requires docs != [] && |docs| <= |patches| + 1
    requires forall i | 0 <= i < |docs| - 1 :: ApplyPatch(docs[i], patches[i]) == Applied(docs[i + 1], 0)
    ensures |docs| > |patches| ==> ApplyEach(docs[0], patches) == Applied(docs[|patches|], 0)
    ensures |docs| <= |patches| ==>
      var r := ApplyPatch(docs[|docs| - 1], patches[|docs| - 1]);
      r.Undefined? || r.code != 0 ==> ApplyEach(docs[0], patches) == r
    decreases |patches|
  {
    hide ApplyPatch;
    if |docs| > 1 {
      assert ApplyPatch(docs[0], patches[0]) == Applied(docs[1], 0);
      AppliesInOrder(patches[1..], docs[1..]);
    }
  }
}
