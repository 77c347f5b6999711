/** Where the paths of a patch lead afterwards: to the value that was added, and no longer to what was taken. */
module PatchReach {
  import opened Bytes
  import opened Decimals
  import opened Members
  import opened Numerals
  import opened Options
  import opened PatchMeaning
  import opened Patching
  import opened PointerPlaces
  import opened Pointers
  import opened Sorting
  import opened Trees

  /** Nodes that are neither above, at nor below the node at `p` are the same in both documents. */
  lemma {:induction false} Elsewhere(a: Json, b: Json, p: Position, q: Position)
    requires ValidPosition(a, p) && OnlyAt(a, b, p) && ValidPosition(a, q) && !(p <= q) && !(q <= p)
    ensures ValidPosition(b, q) && Subtree(b, q) == Subtree(a, q)
    decreases |p|
  {
    if p[0] == q[0] {
      assert p[1..] <= q[1..] ==> p <= q;
      assert q[1..] <= p[1..] ==> q <= p;
      Elsewhere(Child(a, p[0]), Child(b, p[0]), p[1..], q[1..]);
    }
  }

  /** The first token of a path, and the rest of it. */
  lemma LeadsStep(t: Json, path: CString, k: nat, q: Position)
    requires TokenEnds(path, k)
    ensures Leads(t, path, q) <==>
      q != [] && q[0] < Children(t) && LeadsTo(t, path[1..k], q[0]) && Leads(Child(t, q[0]), path[k..], q[1..])
  {
    hide LeadsTo;
    forall l: nat | TokenEnds(path, l) ensures l == k {
      TokenOnce(path, l, k);
    }
  }

  /** The first token leads to one child in both documents. */
  lemma FirstThrough(a: Json, b: Json, up: CString, k: nat, p: Position, tail: CString, q: Position)
    requires TokenEnds(up, k) && tail != [] && tail[0] == 47 && p != [] && p[0] < Children(a) == Children(b)
    requires SameType(a, b) && Leads(a, up, p)
    requires a.Object? ==> forall i | 0 <= i < |a.members| :: a.members[i].name == b.members[i].name
    ensures Leads(Child(a, p[0]), up[k..], p[1..]) && (up[k..] == [] || up[k..][0] == 47)
    ensures Leads(b, up + tail, q) <==>
      q != [] && q[0] == p[0] && Leads(Child(b, p[0]), up[k..] + tail, q[1..])
  {
    hide LeadsTo, Leads, TokenEnds, SameType;
    LeadsStep(a, up, k, p);
    TokenEndsLonger(up, k, tail);
    LeadsStep(b, up + tail, k, q);
    if q != [] && q[0] < Children(b) {
      SameSteps(a, b, up[1..k], p[0], q[0]);
    }
  }

  /** A path that leads through the node at `p` in one document does so in the other. */
  lemma {:induction false} LeadsThrough(a: Json, b: Json, up: CString, p: Position, tail: CString, q: Position)
    requires Leads(a, up, p) && ValidPosition(a, p) && ValidPosition(b, p) && OnlyAt(a, b, p)
    requires (up == [] || up[0] == 47) && tail != [] && tail[0] == 47
    ensures Leads(b, up + tail, q) <==> p <= q && Leads(Subtree(b, p), tail, q[|p|..])
    decreases |up|
  {
    if up == [] {
      assert up + tail == tail && q[0..] == q;
    } else {
      assert p != [];
      var k := TokenOf(up);
      hide Leads, TokenEnds, OnlyAt, ValidPosition, Subtree, Parts, Children, SameType;
      PartsRest(up, k);
      OnlyAtStep(a, b, p);
      FirstThrough(a, b, up, k, p, tail, q);
      if q != [] && q[0] == p[0] {
        LeadsThrough(Child(a, p[0]), Child(b, p[0]), up[k..], p[1..], tail, q[1..]);
        PrefixStep(p, q);
      }
    }
  }

  lemma OnlyAtStep(a: Json, b: Json, p: Position)
    requires p != [] && ValidPosition(a, p) && ValidPosition(b, p) && OnlyAt(a, b, p)
    ensures SameType(a, b) && p[0] < Children(a) == Children(b) && OnlyAt(Child(a, p[0]), Child(b, p[0]), p[1..])
    ensures a.Object? ==> forall k | 0 <= k < |a.members| :: a.members[k].name == b.members[k].name
    ensures ValidPosition(Child(a, p[0]), p[1..]) && ValidPosition(Child(b, p[0]), p[1..])
    ensures Subtree(b, p) == Subtree(Child(b, p[0]), p[1..])
  {}

  lemma PrefixStep(p: Position, q: Position)
    requires p != [] && q != [] && p[0] == q[0]
    ensures p <= q <==> p[1..] <= q[1..]
    ensures p <= q ==> q[1..][|p| - 1..] == q[|p|..]
  {
    if p[1..] <= q[1..] {
      assert p == [p[0]] + p[1..] && q == [q[0]] + q[1..];
    }
  }

  lemma TokenEndsLonger(up: CString, k: nat, tail: CString)
    requires TokenEnds(up, k) && tail != [] && tail[0] == 47
    ensures TokenEnds(up + tail, k) && (up[k..] == [] || up[k..][0] == 47)
    ensures (up + tail)[k..] == up[k..] + tail && (up + tail)[1..k] == up[1..k]
  {
    var path := up + tail;
    assert forall j | 0 <= j < |up| :: path[j] == up[j];
    assert path[|up|] == 47;
  }

  /** A token leads to one child at most, and to the same one where only that child differs. */
  lemma SameSteps(a: Json, b: Json, token: CString, i: nat, j: nat)
    requires SameType(a, b) && Children(a) == Children(b) && LeadsTo(a, token, i)
    requires a.Object? ==> forall k | 0 <= k < |a.members| :: a.members[k].name == b.members[k].name
    ensures LeadsTo(b, token, j) <==> i == j
  {
    hide PointerPlaces.Names;
  }

  /** Every tilde of the token starts an escape of RFC 6901. */
  ghost predicate Spelled(token: CString) {
    exists s: CString :: Spells(token, s)
  }

  /** The last token of a path can lead to a child that is added below this parent. */
  ghost predicate Addresses(parent: Json, token: CString) {
    match parent
    case Array(xs) => AllDigits(token) && Weight(token) <= |xs|
    case Object(_) => Spelled(token)
    case _ => false
  }

  lemma {:induction false} SpellsUnescapes(token: CString, s: CString)
    requires Spells(token, s)
    ensures Unescapes(token, s)
    decreases |token|
  {
    if token != [] {
      SpellsUnescapes(token[if token[0] == 126 then 2 else 1..], s[1..]);
    }
  }

  lemma {:induction false} UnescapesOnce(token: CString, s: CString, t: CString)
    requires Unescapes(token, s) && Unescapes(token, t)
    ensures s == t
    decreases |token|
  {
    if token != [] {
      UnescapesOnce(token[if token[0] == 126 then 2 else 1..], s[1..], t[1..]);
      assert s == [s[0]] + s[1..] && t == [t[0]] + t[1..];
    }
  }

  /** What a token names, by the name it is decoded to. */
  lemma TokenNames(token: CString, name: CString, n: CString)
    requires Unescapes(token, name)
    ensures PointerPlaces.Names(token, n) <==> Spells(token, name) && SameName(name, n)
    ensures Spelled(token) <==> Spells(token, name)
  {
    hide Spells, SameName;
    forall s: CString | Spells(token, s) ensures s == name {
      SpellsUnescapes(token, s);
      UnescapesOnce(token, s, name);
    }
  }

  /** Digits are decoded to themselves and count as what they spell. */
  lemma {:induction false} DigitsUnescape(token: CString, name: CString)
    requires AllDigits(token) && Unescapes(token, name)
    ensures name == token
  {
    if token != [] {
      DigitsUnescape(token[1..], name[1..]);
      assert name == [name[0]] + name[1..] && token == [token[0]] + token[1..];
    }
  }

  lemma DigitsCount(name: CString, i: nat)
    requires AllDigits(name)
    ensures Counts(name, i) <==> i == Weight(name)
  {
    assert name == [] + [] + name + [] && Numeral([], [], name, []);
    assert Counts(name, Weight(name));
    CountsSteps(name, i);
    CountsSteps(name, Weight(name));
  }

  /** One slash and one token lead to a child and no further. */
  lemma LeadsOnce(t: Json, token: CString, q: Position)
    requires 47 !in token
    ensures Leads(t, [47] + token, q) <==> |q| == 1 && q[0] < Children(t) && LeadsTo(t, token, q[0])
  {
    hide LeadsTo;
    var path := [47] + token;
    var k := |path|;
    assert forall j | 0 < j < k :: path[j] == token[j - 1];
    assert TokenEnds(path, k) && path[1..k] == token && path[k..] == [];
    forall l: nat | TokenEnds(path, l) ensures l == k {
      TokenOnce(path, l, k);
    }
    assert q != [] ==> (q[1..] == [] <==> |q| == 1);
  }

  // ----- below one parent

  ghost predicate ReachesChild(t: Json, token: CString, v: Json) {
    exists i: nat :: i < Children(t) && LeadsTo(t, token, i) && Child(t, i) == v
  }

  lemma PutInArray(xs: seq<Json>, token: CString, name: CString, v: Json, ys: seq<Json>)
    requires Unescapes(token, name) && Put(Array(xs), name, v, Array(ys))
    ensures ReachesChild(Array(ys), token, v) <==> Addresses(Array(xs), token)
  {
    hide Counts, Weight;
    if AllDigits(token) {
      DigitsUnescape(token, name);
      assert name != [45];
      var i: nat :| Counts(name, i) && Inserted(xs, if i < |xs| then i else |xs|, v, ys);
      DigitsCount(name, i);
      if i <= |xs| {
        assert LeadsTo(Array(ys), token, i) && Child(Array(ys), i) == v;
      }
    }
  }

  lemma PutInObject(ms: seq<Member>, token: CString, name: CString, v: Json, ns: seq<Member>)
    requires Distinct(ms, Folded) && Unescapes(token, name) && Put(Object(ms), name, v, Object(ns))
    ensures ReachesChild(Object(ns), token, v) <==> Addresses(Object(ms), token)
  {
    hide Spells, Spelled, Unescapes, PointerPlaces.Names, SameName;
    var rest: seq<Member> :| Renamed(ms, name, rest) && Inserted(rest, |rest|, Member(name, v), ns);
    var last := |rest|;
    NoneLeft(ms, name, rest);
    forall i | 0 <= i < |ns|
      ensures PointerPlaces.Names(token, ns[i].name) <==> Spells(token, name) && i == last
    {
      TokenNames(token, name, ns[i].name);
      if i == last {
        SameAsItself(name);
      } else {
        assert ns[i] == rest[i];
      }
    }
    TokenNames(token, name, name);
    if Spells(token, name) {
      assert PointerPlaces.Names(token, ns[last].name);
      assert LeadsTo(Object(ns), token, last) && Child(Object(ns), last) == v;
    }
    if ReachesChild(Object(ns), token, v) {
      var i: nat :| i < |ns| && LeadsTo(Object(ns), token, i);
      assert PointerPlaces.Names(token, ns[i].name);
    }
  }

  lemma SameAsItself(name: CString)
    ensures SameName(name, name)
  {}

  /** After the first member of a name has gone there is no other. */
  lemma NoneLeft(ms: seq<Member>, name: CString, rest: seq<Member>)
    requires Distinct(ms, Folded) && Renamed(ms, name, rest)
    ensures forall k | 0 <= k < |rest| :: !SameName(name, rest[k].name)
  {
    hide SameName;
    forall k | 0 <= k < |rest|
      ensures !SameName(name, rest[k].name)
    {
      LowerAllDecides(name, rest[k].name);
      LowerAllDecides(rest[k].name, name);
      if i: nat :| First(ms, i, name) && Dropped(ms, i, rest) {
        LowerAllDecides(ms[i].name, name);
        var j := if k < i then k else k + 1;
        assert rest[k] == ms[j] && Folded(ms[j]) != Folded(ms[i]);
      } else {
        assert rest[k] in rest;
      }
    }
  }

  lemma PutReached(parent: Json, token: CString, name: CString, v: Json, after: Json)
    requires WellNamed(parent) && Unescapes(token, name) && Put(parent, name, v, after)
    ensures ReachesChild(after, token, v) <==> Addresses(parent, token)
  {
    hide Unescapes;
    match parent
    case Array(xs) => PutInArray(xs, token, name, v, after.items);
    case Object(ms) => PutInObject(ms, token, name, v, after.members);
    case _ =>
  }

  // ----- in the whole document

  /** Following the path leads to a child of the node at `p` that is `v`. */
  ghost predicate Reached(d: Json, path: CString, p: Position, v: Json)
    requires ValidPosition(d, p)
  {
    exists i: nat :: i < Children(Subtree(d, p)) && Leads(d, path, p + [i]) && Child(Subtree(d, p), i) == v
  }

  lemma ReachedBelow(a: Json, d: Json, path: CString, up: CString, token: CString, p: Position, v: Json)
    requires Splits(path, up, token) && Leads(a, up, p) && ValidPosition(a, p) && ValidPosition(d, p) && OnlyAt(a, d, p)
    ensures Reached(d, path, p, v) <==> path[0] == 47 && ReachesChild(Subtree(d, p), token, v)
  {
    hide LeadsTo, OnlyAt, Leads;
    var t := Subtree(d, p);
    assert path == up + ([47] + token);
    if path[0] == 47 {
      forall i: nat | i < Children(t)
        ensures Leads(d, path, p + [i]) <==> LeadsTo(t, token, i)
      {
        LeadsThrough(a, d, up, p, [47] + token, p + [i]);
        LeadsOnce(t, token, [i]);
        assert (p + [i])[|p|..] == [i];
      }
    } else {
      NoSlash(d, path);
    }
  }

  lemma NoSlash(d: Json, path: CString)
    requires path == [] || path[0] != 47
    ensures forall q :: Leads(d, path, q) <==> q == []
  {}

  /** The parent that a path leads to is the one that it points below. */
  lemma SameParent(doc: Json, path: CString, up: CString, token: CString, p: Position, q: Position, name: CString)
    requires Splits(path, up, token) && Leads(doc, up, p) && Points(doc, path, q, name)
    ensures p == q && Unescapes(token, name)
  {
    hide Leads;
    var up1: CString, token1: CString :| Splits(path, up1, token1) && Unescapes(token1, name) && Leads(doc, up1, q);
    LastSlashAt(path, up, token);
    LastSlashAt(path, up1, token1);
    GetPointerLeads(doc, up, p);
    GetPointerLeads(doc, up, q);
  }

  /**
   * After a value has been added, the patch's path leads to it exactly when the path starts with a slash and its last
   * token is an index up to the length of the array in plain digits, or a properly escaped name in an object.
   */
  lemma AddedIsReached(doc: Json, path: CString, v: Json, d: Json, up: CString, token: CString, p: Position)
    requires WellNamed(doc) && Adds(doc, path, v, d, 0) && Splits(path, up, token) && Leads(doc, up, p)
    ensures ValidPosition(doc, p) && ValidPosition(d, p)
    ensures Reached(d, path, p, v) <==> path[0] == 47 && Addresses(Subtree(doc, p), token)
  {
    hide Leads, OnlyAt, Put, Unescapes, Addresses, ReachesChild, Reached;
    var q: Position, name: CString :|
      && Points(doc, path, q, name) && ValidPosition(d, q) && OnlyAt(doc, d, q)
      && Put(Subtree(doc, q), name, v, Subtree(d, q));
    SameParent(doc, path, up, token, p, q, name);
    SubtreeNamed(doc, p);
    ReachedBelow(doc, d, path, up, token, p, v);
    PutReached(Subtree(doc, p), token, name, v, Subtree(d, p));
  }

  // ----- what was taken

  lemma TakenFromObject(ms: seq<Member>, token: CString, name: CString, ns: seq<Member>, i: nat)
    requires Distinct(ms, Folded) && Unescapes(token, name)
    requires exists k: nat :: First(ms, k, name) && Dropped(ms, k, ns)
    ensures !LeadsTo(Object(ns), token, i)
  {
    hide PointerPlaces.Names, SameName, First, Unescapes;
    assert Renamed(ms, name, ns);
    NoneLeft(ms, name, ns);
    if i < |ns| {
      TokenNames(token, name, ns[i].name);
    }
  }

  lemma TakenFromArray(xs: seq<Json>, token: CString, name: CString, item: Json, ys: seq<Json>, i: nat)
    requires Unescapes(token, name) && Taken(Array(xs), name, item, Array(ys)) && LeadsTo(Array(ys), token, i)
    ensures i + 1 < |xs| && ys[i] == xs[i + 1] && xs[i] == item
  {
    hide Counts;
    DigitsUnescape(token, name);
    DigitsCount(name, i);
    var k: nat :| Counts(name, k) && Dropped(xs, k, ys) && item == xs[k];
    DigitsCount(name, k);
  }

  /**
   * Where the path of something that was taken leads afterwards: nowhere from an object, and from an array to the item
   * that came after it, if there is one.
   */
  lemma TakenIsGone(doc: Json, path: CString, item: Json, d: Json, up: CString, token: CString, p: Position)
    requires WellNamed(doc) && Takes(doc, path, item, d) && Splits(path, up, token) && Leads(doc, up, p)
    requires path[0] == 47
    ensures ValidPosition(doc, p) && ValidPosition(d, p) && Subtree(doc, p).Container()
    ensures Subtree(doc, p).Object? ==> Nowhere(d, path)
    ensures forall q | Leads(d, path, q) :: Follows(Subtree(doc, p), item, Subtree(d, p), p, q)
  {
    hide Leads, OnlyAt, Taken, Unescapes, LeadsTo;
    var r: Position, name: CString :|
      && Points(doc, path, r, name) && ValidPosition(d, r) && OnlyAt(doc, d, r)
      && Taken(Subtree(doc, r), name, item, Subtree(d, r));
    SameParent(doc, path, up, token, p, r, name);
    SubtreeNamed(doc, p);
    assert path == up + ([47] + token);
    TakenContainer(Subtree(doc, p), name, item, Subtree(d, p));
    forall q | Leads(d, path, q)
      ensures Follows(Subtree(doc, p), item, Subtree(d, p), p, q) && Subtree(doc, p).Array?
    {
      LeadsThrough(doc, d, up, p, [47] + token, q);
      LeadsOnce(Subtree(d, p), token, q[|p|..]);
      assert q == p + q[|p|..];
      TakenStep(Subtree(doc, p), token, name, item, Subtree(d, p), q[|p|..][0]);
    }
  }

  /** `q` is a child of the node at `p` that came right after `item`. */
  ghost predicate Follows(parent: Json, item: Json, rest: Json, p: Position, q: Position) {
    && |q| == |p| + 1 && p <= q
    && var i := q[|p|];
       && i < Children(rest) && i + 1 < Children(parent)
       && Child(parent, i) == item && Child(rest, i) == Child(parent, i + 1)
  }

  lemma TakenContainer(parent: Json, name: CString, item: Json, rest: Json)
    requires Taken(parent, name, item, rest)
    ensures parent.Container()
  {}

  lemma TakenStep(parent: Json, token: CString, name: CString, item: Json, rest: Json, i: nat)
    requires WellNamed(parent) && Unescapes(token, name) && Taken(parent, name, item, rest) && LeadsTo(rest, token, i)
    ensures parent.Array? && rest.Array? && i + 1 < |parent.items| && i < |rest.items|
    ensures parent.items[i] == item && rest.items[i] == parent.items[i + 1]
  {
    hide Unescapes, LeadsTo, Counts, First, Dropped;
    match parent
    case Array(xs) =>
      TakenFromArray(xs, token, name, item, rest.items, i);
      IndexInside(rest.items, token, i);
    case Object(ms) => TakenFromObject(ms, token, name, rest.members, i);
    case _ =>
  }

  lemma IndexInside(ys: seq<Json>, token: CString, i: nat)
    requires LeadsTo(Array(ys), token, i)
    ensures i < |ys|
  {}

  // ----- names stay distinct

  lemma {:induction false} ItemsAppend(xs: seq<Json>, ys: seq<Json>)
    ensures ItemsWellNamed(xs + ys) <==> ItemsWellNamed(xs) && ItemsWellNamed(ys)
  {
    if xs == [] {
      assert xs + ys == ys;
    } else {
      assert (xs + ys)[1..] == xs[1..] + ys;
      ItemsAppend(xs[1..], ys);
    }
  }

  lemma RemoveItemNamed(xs: seq<Json>, i: nat)
    requires ItemsWellNamed(xs)
    ensures ItemsWellNamed(Remove(xs, i))
  {
    if i < |xs| {
      assert xs == xs[..i] + ([xs[i]] + xs[i + 1..]);
      ItemsAppend(xs[..i], [xs[i]] + xs[i + 1..]);
      ItemsAppend([xs[i]], xs[i + 1..]);
      ItemsAppend(xs[..i], xs[i + 1..]);
    }
  }

  lemma InsertItemNamed(xs: seq<Json>, i: nat, v: Json)
    requires ItemsWellNamed(xs) && WellNamed(v)
    ensures ItemsWellNamed(Insert(xs, i, v)) && ItemsWellNamed(xs + [v])
  {
    ItemsAppend(xs, [v]);
    if i < |xs| {
      assert xs == xs[..i] + xs[i..];
      ItemsAppend(xs[..i], xs[i..]);
      ItemsAppend(xs[..i], [v]);
      ItemsAppend(xs[..i] + [v], xs[i..]);
    }
  }

  lemma AddChildNamed(parent: Json, name: CString, v: Json)
    requires WellNamed(parent) && WellNamed(v)
    ensures WellNamed(AddChild(parent, name, v))
  {
    match parent
    case Array(xs) => InsertItemNamed(xs, Steps(Atoi(name)), v);
    case Object(ms) =>
      RemoveDistinct(ms, FindName(ms, name));
      WithoutLookup(ms, name, LowerAll(name));
      AppendDistinct(Without(ms, name), Member(name, v));
    case _ =>
  }

  lemma {:induction false} SetNamed(t: Json, p: Position, v: Json)
    requires WellNamed(t) && ValidPosition(t, p) && WellNamed(v)
    ensures WellNamed(SetSubtree(t, p, v))
    decreases |p|
  {
    if p != [] {
      ChildWellNamed(t, p[0]);
      SetNamed(Child(t, p[0]), p[1..], v);
      match t
      case Array(xs) => ItemStaysNamed(xs, p[0], SetSubtree(Child(t, p[0]), p[1..], v));
      case Object(ms) => UpdateDistinct(ms, p[0], SetSubtree(Child(t, p[0]), p[1..], v));
    }
  }

  lemma DetachNamed(doc: Json, path: CString)
    requires WellNamed(doc)
    ensures var r := PatchDetach(doc, path);
      r.Detached? ==> WellNamed(r.doc) && (r.item.Some? ==> WellNamed(r.item.value))
  {
    hide SplitPath, GetPointer, SetSubtree, Remove;
    var split := SplitPath(path);
    if split.Some? {
      var at := GetPointer(doc, split.value.0);
      if at.Some? {
        var parent := Subtree(doc, at.value);
        SubtreeNamed(doc, at.value);
        match parent
        case Array(xs) =>
          var i := Steps(Atoi(split.value.1));
          RemoveItemNamed(xs, i);
          SetNamed(doc, at.value, Array(Remove(xs, i)));
          if i < |xs| {
            ItemWellNamed(xs, i);
          }
        case Object(ms) =>
          var i := FindName(ms, split.value.1);
          RemoveDistinct(ms, i);
          SetNamed(doc, at.value, Object(Remove(ms, i)));
        case _ =>
      }
    }
  }

  lemma AddNamed(doc: Json, path: CString, v: Json)
    requires WellNamed(doc) && WellNamed(v)
    ensures DoAdd(doc, path, v).Applied? ==> WellNamed(DoAdd(doc, path, v).doc)
  {
    hide SplitPath, GetPointer, SetSubtree, AddChild;
    var split := SplitPath(path);
    if split.Some? {
      var at := GetPointer(doc, split.value.0);
      if at.Some? {
        SubtreeNamed(doc, at.value);
        AddChildNamed(Subtree(doc, at.value), split.value.1, v);
        SetNamed(doc, at.value, AddChild(Subtree(doc, at.value), split.value.1, v));
      }
    }
  }

  lemma ItemNamed(t: Json, name: CString)
    requires WellNamed(t)
    ensures GetItem(t, name).Some? ==> WellNamed(GetItem(t, name).value)
  {
    if t.Object? && FindName(t.members, name) < |t.members| {
      assert t.members[FindName(t.members, name)] in t.members;
    }
  }

  lemma ReplaceNamed(doc: Json, path: CString, v: Option<Json>)
    requires WellNamed(doc) && (v.Some? ==> WellNamed(v.value))
    ensures var r := DoReplace(doc, path, v); r.Applied? ==> WellNamed(r.doc)
  {
    hide PatchDetach, DoAdd;
    DetachNamed(doc, path);
    var d := PatchDetach(doc, path);
    if d.Detached? && v.Some? {
      AddNamed(d.doc, path, v.value);
    }
  }

  lemma RemoveNamed(doc: Json, path: CString)
    requires WellNamed(doc)
    ensures var r := DoRemove(doc, path); r.Applied? ==> WellNamed(r.doc)
  {
    hide PatchDetach;
    DetachNamed(doc, path);
  }

  lemma TestNamed(doc: Json, path: CString, v: Option<Json>)
    requires WellNamed(doc) && (v.Some? ==> WellNamed(v.value))
    ensures DoTest(doc, path, v).Applied? ==> WellNamed(DoTest(doc, path, v).doc)
  {
    if v.Some? {
      hide DoTest;
      TestMeans(doc, path, v.value);
    }
  }

  lemma MoveNamed(doc: Json, path: CString, from: Option<Json>)
    requires WellNamed(doc)
    ensures var r := DoMove(doc, path, from); r.Applied? ==> WellNamed(r.doc)
  {
    hide PatchDetach, DoAdd;
    if from.Some? && from.value.String? {
      DetachNamed(doc, from.value.s);
      var d := PatchDetach(doc, from.value.s);
      if d.Detached? && d.item.Some? {
        AddNamed(d.doc, path, d.item.value);
      }
    }
  }

  lemma CopyNamed(doc: Json, path: CString, from: Option<Json>)
    requires WellNamed(doc)
    ensures var r := DoCopy(doc, path, from); r.Applied? ==> WellNamed(r.doc)
  {
    hide GetPointer, DoAdd;
    if from.Some? && from.value.String? {
      var at := GetPointer(doc, from.value.s);
      if at.Some? {
        SubtreeNamed(doc, at.value);
        AddNamed(doc, path, Subtree(doc, at.value));
      }
    }
  }

  lemma DispatchNamed(doc: Json, op: CString, path: CString, patch: Json)
    requires WellNamed(doc) && WellNamed(patch)
    ensures var r := Dispatch(doc, op, path, patch); r.Applied? ==> WellNamed(r.doc)
  {
    hide GetItem, DoAdd, DoRemove, DoReplace, DoMove, DoCopy, DoTest, WellNamed;
    var v, from := GetItem(patch, VALUE), GetItem(patch, FROM);
    ItemNamed(patch, VALUE);
    if op == TEST {
      TestNamed(doc, path, v);
    } else if op == REMOVE {
      RemoveNamed(doc, path);
    } else if op == REPLACE {
      ReplaceNamed(doc, path, v);
    } else if op == MOVE {
      MoveNamed(doc, path, from);
    } else if op == COPY {
      CopyNamed(doc, path, from);
    } else if op == ADD && v.Some? {
      AddNamed(doc, path, v.value);
    }
  }

  /** Every patch keeps the names of each object distinct. */
  lemma ApplyNamed(doc: Json, patch: Json)
    requires WellNamed(doc) && WellNamed(patch)
    ensures ApplyPatch(doc, patch).Applied? ==> WellNamed(ApplyPatch(doc, patch).doc)
  {
    hide GetItem, ApplyPatch, Dispatch, WellNamed;
    var op, path := GetItem(patch, OP), GetItem(patch, PATH);
    if op.None? || path.None? {
      NothingToApply(doc, patch);
    } else if op.value.String? {
      DispatchApplies(doc, patch, op.value.s, path.value);
      if path.value.String? {
        DispatchNamed(doc, op.value.s, path.value.s, patch);
      }
    } else {
      NotAString(doc, patch);
    }
  }

  lemma {:induction false} ApplyEachNamed(doc: Json, patches: seq<Json>)
    requires WellNamed(doc) && forall p | p in patches :: WellNamed(p)
    ensures ApplyEach(doc, patches).Applied? ==> WellNamed(ApplyEach(doc, patches).doc)
    decreases |patches|
  {
    hide ApplyPatch, WellNamed;
    if patches != [] {
      ApplyNamed(doc, patches[0]);
      var r := ApplyPatch(doc, patches[0]);
      if r.Applied? && r.code == 0 {
        assert forall p | p in patches[1..] :: p in patches;
        ApplyEachNamed(r.doc, patches[1..]);
      }
    }
  }

  // ----- moving and copying

  /** After a "move" with code 0 what was at `from` is taken out and is where the path leads, if it can lead there. */
  lemma MovedIsReached(doc: Json, from: CString, path: CString, d: Json)
    returns (item: Json, m: Json, up: CString, token: CString, p: Position)
    requires WellNamed(doc) && DoMove(doc, path, Some(String(from))) == Applied(d, 0)
    ensures Takes(doc, from, item, m) && Adds(m, path, item, d, 0)
    ensures Splits(path, up, token) && Leads(m, up, p) && ValidPosition(m, p) && ValidPosition(d, p)
    ensures Reached(d, path, p, item) <==> path[0] == 47 && Addresses(Subtree(m, p), token)
  {
    hide PatchDetach, DoAdd, Takes, Leads, Reached, Addresses;
    DetachMeans(doc, from);
    DetachNamed(doc, from);
    var r := PatchDetach(doc, from);
    item, m := r.item.value, r.doc;
    AddMeans(m, path, item);
    up, token, p := AddedBelow(m, path, item, d);
    AddedIsReached(m, path, item, d, up, token, p);
  }

  /** After a "copy" with code 0: what is at `from` is also where the path leads, if it can lead there. */
  lemma CopiedIsReached(doc: Json, from: CString, path: CString, d: Json)
    returns (q: Position, up: CString, token: CString, p: Position)
    requires WellNamed(doc) && DoCopy(doc, path, Some(String(from))) == Applied(d, 0)
    ensures Leads(doc, from, q) && ValidPosition(doc, q) && Adds(doc, path, Subtree(doc, q), d, 0)
    ensures Splits(path, up, token) && Leads(doc, up, p) && ValidPosition(doc, p) && ValidPosition(d, p)
    ensures Reached(d, path, p, Subtree(doc, q)) <==> path[0] == 47 && Addresses(Subtree(doc, p), token)
  {
    hide GetPointer, DoAdd, Leads, Reached, Addresses;
    q := GetPointer(doc, from).value;
    GetPointerLeads(doc, from, q);
    AddMeans(doc, path, Subtree(doc, q));
    up, token, p := AddedBelow(doc, path, Subtree(doc, q), d);
    AddedIsReached(doc, path, Subtree(doc, q), d, up, token, p);
  }

  lemma AddedBelow(doc: Json, path: CString, v: Json, d: Json) returns (up: CString, token: CString, p: Position)
    requires Adds(doc, path, v, d, 0)
    ensures Splits(path, up, token) && Leads(doc, up, p)
  {
    hide Leads, OnlyAt, Put, Unescapes;
    var name: CString;
    p, name :|
      && Points(doc, path, p, name) && ValidPosition(d, p) && OnlyAt(doc, d, p)
      && Put(Subtree(doc, p), name, v, Subtree(d, p));
    up, token :| Splits(path, up, token) && Unescapes(token, name) && Leads(doc, up, p);
  }
}
