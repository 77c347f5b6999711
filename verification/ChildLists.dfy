/** The doubly linked lists of children: the edits by index and the merge sort, as they relink the nodes. */
module ChildLists {
  import opened Bytes
  import opened Sequences
  import opened Sorting

  class Node {
    const name: CString
    var next: Node?
    var prev: Node?

    constructor (name: CString)
      ensures this.name == name && next == null && prev == null
    {
      this.name := name;
      next, prev := null, null;
    }
  }

  /** Names are compared without regard to case. */
  function Key(n: Node): CString {
    LowerAll(n.name)
  }

  function NodeAt(s: seq<Node>, i: int): Node? {
    if 0 <= i < |s| then s[i] else null
  }

  /** Node `i` of `s` points to its neighbours; the `prev` of the first node is left open. */
  ghost predicate LinkedAt(s: seq<Node>, i: nat)
    requires i < |s|
    reads s
  {
    s[i].next == NodeAt(s, i + 1) && (0 < i ==> s[i].prev == NodeAt(s, i - 1))
  }

  /** A list as the sort takes and leaves it. */
  ghost predicate Linked(s: seq<Node>)
    reads s
  {
    NoRepeats(s) && forall i | 0 <= i < |s| :: LinkedAt(s, i)
  }

  ghost predicate Apart(a: seq<Node>, b: seq<Node>) {
    forall n | n in a :: n !in b
  }

  // ----- edits

  /** An array or object node, as the owner of its children. */
  class Parent {
    var child: Node?
    /** The children from first to last. */
    ghost var nodes: seq<Node>

    constructor ()
      ensures Valid() && nodes == []
    {
      child := null;
      nodes := [];
    }

    /** The next-chain is right and `prev` agrees with it everywhere but at the first child. */
    ghost predicate Sortable()
      reads this, nodes
    {
      Linked(nodes) && child == NodeAt(nodes, 0)
    }

    /** Well formed: also the first child's `prev` is null. */
    ghost predicate Valid()
      reads this, nodes
    {
      Sortable() && (nodes != [] ==> nodes[0].prev == null)
    }

    /** What the first child's `prev` points to. */
    ghost function Stray(): set<Node>
      reads this, nodes
    {
      if nodes != [] && nodes[0].prev != null then {nodes[0].prev} else {}
    }

    /** The walk that every edit by index starts with: a negative index counts as 0. */
    method Locate(which: int) returns (c: Node?, ghost k: nat)
      requires Sortable()
      ensures k == Position(which, |nodes|)
      ensures c == NodeAt(nodes, Position(which, |nodes|))
    {
      c, k := child, 0;
      var left := which;
      while c != null && left > 0
        invariant k <= |nodes| && c == (if k < |nodes| then nodes[k] else null)
        invariant if which <= 0 then k == 0 && left == which else k + left == which && 0 <= left
        decreases |nodes| - k
      {
        assert LinkedAt(nodes, k);
        c := c.next;
        left := left - 1;
        k := k + 1;
      }
    }

    /**
     * `cJSON_AddItemToArray`: appends the item and whatever its `next` leads to. Only in an empty list does the
     * item's own `prev` stay. The first child's `prev` does not matter.
     */
    method Add(item: Node, ghost chain: seq<Node>)
      requires Sortable() && Linked(chain) && chain != [] && chain[0] == item && Apart(nodes, chain)
      modifies this, nodes, item
      ensures Sortable() && nodes == old(nodes) + chain
      ensures Valid() <==> if old(nodes) != [] then old(Valid()) else old(item.prev) == null
      ensures nodes[0].prev == if old(nodes) != [] then old(nodes[0].prev) else old(item.prev)
    {
      if child == null {
        child := item;
        assert [] + chain == chain;
      } else {
        var c, i := child, 0;
        assert LinkedAt(nodes, 0);
        while c.next != null
          invariant i < |nodes| && c == nodes[i] && LinkedAt(nodes, i)
          decreases |nodes| - i
        {
          c, i := c.next, i + 1;
          assert LinkedAt(nodes, i);
        }
        CutLinked(nodes, |nodes|);
        assert nodes[..|nodes|] == nodes && item in chain;
        Join(c, item, nodes, chain);
      }
      nodes := nodes + chain;
    }

    /** `cJSON_InsertItemInArray`: the item's links are overwritten; past the end it appends the item and its chain. */
    method Insert(which: int, item: Node, ghost chain: seq<Node>)
      requires Sortable() && Linked(chain) && chain != [] && chain[0] == item && Apart(nodes, chain)
      modifies this, nodes, item
      ensures Sortable()
      ensures var k := Position(which, |old(nodes)|);
        nodes == old(nodes[..k]) + (if k < |old(nodes)| then [item] else chain) + old(nodes[k..])
      ensures Valid() <==> if old(nodes) != [] then old(Valid()) else old(item.prev) == null
    {
      ghost var was := nodes;
      assert item in chain;
      var c, k := Locate(which);
      if c == null {
        assert was[..k] + chain + was[k..] == was + chain;
        Add(item, chain);
        return;
      }
      LinkBefore(c, item, k);
    }

    /** Links `item` in front of child `k`. */
    method LinkBefore(c: Node, item: Node, ghost k: nat)
      requires Sortable() && k < |nodes| && c == nodes[k] && item !in nodes
      modifies this, nodes, item
      ensures Sortable() && nodes == old(nodes[..k]) + [item] + old(nodes[k..]) && (Valid() <==> old(Valid()))
    {
      ghost var was := nodes;
      assert LinkedAt(nodes, k) && (0 < k ==> nodes[0] != nodes[k]);
      item.next := c;
      item.prev := c.prev;
      c.prev := item;
      if c == child {
        child := item;
      } else {
        item.prev.next := item;
      }
      nodes := was[..k] + [item] + was[k..];
      forall j | 0 <= j < |nodes|
        ensures LinkedAt(nodes, j)
      {
        if j < k {
          assert nodes[j] == was[j] && old(LinkedAt(nodes, j));
        } else if j > k {
          assert nodes[j] == was[j - 1] && old(LinkedAt(nodes, j - 1));
        }
      }
    }

    /** `cJSON_ReplaceItemInArray`: past the end it does nothing. The replaced node comes back unlinked. */
    method Replace(which: int, item: Node) returns (c: Node?)
      requires Sortable() && item !in nodes
      modifies this, nodes, item
      ensures Sortable() && (Valid() <==> old(Valid()))
      ensures var k := Position(which, |old(nodes)|);
        && (k == |old(nodes)| ==> c == null && nodes == old(nodes))
        && (k < |old(nodes)| ==> c == old(nodes[k]) && c.next == null && c.prev == null)
        && (k < |old(nodes)| ==> nodes == old(nodes)[k := item])
    {
      ghost var k;
      c, k := Locate(which);
      if c == null {
        return;
      }
      LinkInstead(c, item, k);
    }

    /** Puts `item` in the place of child `k`. */
    method LinkInstead(c: Node, item: Node, ghost k: nat)
      requires Sortable() && k < |nodes| && c == nodes[k] && item !in nodes
      modifies this, nodes, item
      ensures Sortable() && (Valid() <==> old(Valid()))
      ensures nodes == old(nodes)[k := item] && c.next == null && c.prev == null
    {
      ghost var was := nodes;
      assert LinkedAt(nodes, k) && (0 < k ==> nodes[0] != nodes[k]);
      item.next := c.next;
      item.prev := c.prev;
      if item.next != null {
        item.next.prev := item;
      }
      if c == child {
        child := item;
      } else {
        item.prev.next := item;
      }
      c.next, c.prev := null, null;
      nodes := nodes[k := item];
      forall j | 0 <= j < |nodes|
        ensures LinkedAt(nodes, j)
      {
        assert old(LinkedAt(nodes, j));
      }
    }

    /**
     * `cJSON_DetachItemFromArray`. It is right on a well-formed list; where the first child's `prev` is stale,
     * detaching the first child redirects the node that this `prev` points to.
     */
    method Detach(which: int) returns (c: Node?)
      requires Sortable() && (nodes != [] ==> nodes[0].prev != nodes[0])
      modifies this, nodes, Stray()
      ensures old(Valid()) ==> Valid()
      ensures which > 0 ==> Sortable()
      ensures which > 0 && old(nodes) != [] ==> nodes != [] && nodes[0].prev == old(nodes[0].prev)
      ensures var k := Position(which, |old(nodes)|);
        && (k == |old(nodes)| ==> c == null && nodes == old(nodes))
        && (k < |old(nodes)| ==> c == old(nodes[k]) && c.next == null && c.prev == null)
        && (k < |old(nodes)| ==> nodes == old(nodes[..k] + nodes[k + 1..]))
      ensures which <= 0 && old(nodes != [] && nodes[0].prev != null) ==>
                old(nodes[0].prev).next == old(nodes[0].next) == child
    {
      ghost var k;
      c, k := Locate(which);
      if c == null {
        return;
      }
      Unlink(c, k);
    }

    /** Takes child `k` out. */
    method Unlink(c: Node, ghost k: nat)
      requires Sortable() && k < |nodes| && c == nodes[k]
      requires nodes[0].prev != nodes[0]
      modifies this, nodes, Stray()
      ensures old(Valid()) ==> Valid()
      ensures 0 < k ==> Sortable() && nodes != [] && nodes[0].prev == old(nodes[0].prev)
      ensures nodes == old(nodes[..k] + nodes[k + 1..]) && c.next == null && c.prev == null
      ensures k == 0 && old(nodes[0].prev) != null ==> old(nodes[0].prev).next == old(nodes[0].next) == child
    {
      ghost var was := nodes;
      assert LinkedAt(nodes, k) && (0 < k ==> nodes[0] != nodes[k]);
      if c.prev != null {
        c.prev.next := c.next;
      }
      if c.next != null {
        c.next.prev := c.prev;
      }
      if c == child {
        child := c.next;
      }
      c.prev, c.next := null, null;
      nodes := nodes[..k] + nodes[k + 1..];
      if old(Valid()) || 0 < k {
        forall j | 0 <= j < |nodes|
          ensures LinkedAt(nodes, j)
        {
          if j < k {
            assert nodes[j] == was[j] && old(LinkedAt(nodes, j));
          } else {
            assert nodes[j] == was[j + 1] && old(LinkedAt(nodes, j + 1));
          }
        }
      }
    }

    /** `cJSONUtils_SortObject` */
    method Sort()
      requires Sortable()
      modifies this, nodes
      ensures Sortable() && nodes == SortBy(old(nodes), Key)
      ensures nodes != [] ==> nodes[0].prev == old(SortBy(nodes, Key)[0].prev)
      ensures old(Valid()) ==> (Valid() <==> nodes == [] || nodes[0] == old(nodes[0]))
    {
      hide SortBy, Sorted;
      ghost var was := nodes;
      child := SortList(child, nodes);
      nodes := SortBy(nodes, Key);
      SameNodes(was, nodes);
      if nodes != [] {
        assert nodes[0] in was;
        ghost var i :| 0 <= i < |was| && was[i] == nodes[0];
        assert old(LinkedAt(nodes, i));
      }
    }
  }

  /** Where a walk by index ends in a list of `n` nodes. */
  function Position(which: int, n: nat): nat {
    if which <= 0 then 0 else if which <= n then which else n
  }

  // ----- sorting

  /** The loop that recognises a list in ascending order. */
  method IsAscending(list: Node, ghost s: seq<Node>) returns (r: bool)
    requires Linked(s) && s != [] && list == s[0]
    ensures r <==> Ascending(s, Key)
  {
    var ptr := list;
    ghost var i := 0;
    r := true;
    assert LinkedAt(s, 0);
    while ptr.next != null && r
      invariant 0 <= i < |s| && ptr == s[i] && LinkedAt(s, i)
      invariant r ==> Ascending(s[..i + 1], Key)
      invariant !r ==> !Ascending(s, Key)
      decreases |s| - i, r
    {
      var order := StrCaseCmp(ptr.name, ptr.next.name);
      assert LinkedAt(s, i + 1);
      if order < 0 {
        AscendingStep(s, i + 1);
        ptr, i := ptr.next, i + 1;
      } else {
        assert !KeyLess(s[i], s[i + 1], Key);
        r := false;
      }
    }
    if r {
      assert s[..i + 1] == s;
    }
  }

  lemma AscendingStep(s: seq<Node>, i: nat)
    requires 0 < i < |s| && Ascending(s[..i], Key) && KeyLess(s[i - 1], s[i], Key)
    ensures Ascending(s[..i + 1], Key)
  {
    var t := s[..i + 1];
    forall j | 0 <= j < |t| - 1
      ensures KeyLess(t[j], t[j + 1], Key)
    {
      if j < i - 1 {
        assert t[j] == s[..i][j] && t[j + 1] == s[..i][j + 1];
      }
    }
  }

  /** The loop that walks two pointers to find the first node of the second half. */
  method Middle(list: Node, ghost s: seq<Node>) returns (second: Node)
    requires Linked(s) && |s| >= 2 && list == s[0]
    ensures second == s[(|s| + 1) / 2]
  {
    var slow: Node?, ptr: Node? := list, list;
    ghost var i: nat, j: nat := 0, 0;
    while ptr != null
      invariant 2 * i == j || (2 * i == j + 1 && j == |s|)
      invariant i <= j <= |s| && slow == NodeAt(s, i) && ptr == NodeAt(s, j)
      decreases |s| - j
    {
      assert LinkedAt(s, i) && LinkedAt(s, j);
      slow, i := slow.next, i + 1;
      ptr, j := ptr.next, j + 1;
      if ptr != null {
        assert LinkedAt(s, j);
        ptr, j := ptr.next, j + 1;
      }
    }
    second := slow;
  }

  /** Cuts the list in two; the second half keeps a `prev` that points into the first. */
  method Split(second: Node, ghost s: seq<Node>)
    requires Linked(s) && |s| >= 2 && second == s[(|s| + 1) / 2]
    modifies s`next
    ensures Linked(s[..(|s| + 1) / 2]) && Linked(s[(|s| + 1) / 2..])
  {
    ghost var m := (|s| + 1) / 2;
    assert LinkedAt(s, m);
    if second.prev != null {
      second.prev.next := null;
    }
    forall i | 0 <= i < m
      ensures LinkedAt(s[..m], i)
    {
      assert old(LinkedAt(s, i));
    }
    forall i | 0 <= i < |s| - m
      ensures LinkedAt(s[m..], i)
    {
      assert old(LinkedAt(s, m + i));
    }
  }

  ghost predicate OpenAt(s: seq<Node>, i: nat)
    requires i < |s|
    reads s
  {
    (i + 1 < |s| ==> s[i].next == s[i + 1]) && (0 < i ==> s[i].prev == s[i - 1])
  }

  /** The merged part: linked inside, its last node's `next` still open. */
  ghost predicate Open(s: seq<Node>)
    reads s
  {
    NoRepeats(s) && forall i | 0 <= i < |s| :: OpenAt(s, i)
  }

  ghost predicate LastOf(s: seq<Node>, n: Node?) {
    n == NodeAt(s, |s| - 1)
  }

  lemma RepeatsJoin(a: seq<Node>, b: seq<Node>)
    requires NoRepeats(a) && NoRepeats(b) && Apart(a, b)
    ensures NoRepeats(a + b)
  {
    forall i, j | 0 <= i < j < |a + b|
      ensures (a + b)[i] != (a + b)[j]
    {
      if i < |a| && |a| <= j {
        assert a[i] in a && b[j - |a|] in b;
      }
    }
  }

  /** `ptr->next = n; n->prev = ptr`, where there is a `ptr`. */
  method Join(ptr: Node?, n: Node, ghost done: seq<Node>, ghost rest: seq<Node>)
    requires Open(done) && LastOf(done, ptr) && Linked(rest) && rest != [] && n == rest[0] && Apart(done, rest)
    modifies (if ptr == null then {} else {ptr})`next, (if ptr == null then {} else {n})`prev
    ensures Linked(done + rest)
  {
    assert n in rest && n !in done && (ptr != null ==> ptr in done && ptr !in rest);
    RepeatsJoin(done, rest);
    if ptr != null {
      ptr.next := n;
      n.prev := ptr;
    }
    ghost var all := done + rest;
    forall i | 0 <= i < |all|
      ensures LinkedAt(all, i)
    {
      if i < |done| {
        assert old(OpenAt(done, i)) && all[i] == done[i] && done[i] in done;
        assert i < |done| - 1 ==> done[i] != done[|done| - 1];
      } else {
        assert old(LinkedAt(rest, i - |done|)) && all[i] == rest[i - |done|] && rest[i - |done|] in rest;
        assert i > |done| ==> rest[i - |done|] != rest[0];
      }
    }
  }

  lemma CutLinked(s: seq<Node>, k: nat)
    requires Linked(s) && k <= |s|
    ensures Open(s[..k]) && Linked(s[k..])
  {
    forall i | 0 <= i < k
      ensures OpenAt(s[..k], i)
    {
      assert LinkedAt(s, i);
    }
    forall i | 0 <= i < |s| - k
      ensures LinkedAt(s[k..], i)
    {
      assert LinkedAt(s, k + i);
    }
  }

  /** The state of the merge: what is merged, and the two lists that are left. */
  ghost predicate Merging(done: seq<Node>, a: seq<Node>, b: seq<Node>)
    reads done, a, b
  {
    Open(done) && Linked(a) && Linked(b) && Apart(done, a) && Apart(done, b) && Apart(a, b)
  }

  lemma MergingTurns(done: seq<Node>, a: seq<Node>, b: seq<Node>)
    requires Merging(done, a, b)
    ensures Merging(done, b, a)
  {}

  /** Moves the first node of `a` behind the merged part. */
  method Take(ptr: Node?, n: Node, ghost done: seq<Node>, ghost a: seq<Node>, ghost b: seq<Node>)
    requires Merging(done, a, b) && LastOf(done, ptr) && a != [] && n == a[0]
    modifies (if ptr == null then {} else {ptr})`next, (if ptr == null then {} else {n})`prev
    ensures Merging(done + [n], a[1..], b) && n.next == NodeAt(a, 1)
  {
    assert ptr != null ==> ptr in done && ptr !in b;
    assert n in a && n !in b;
    Join(ptr, n, done, a);
    ghost var all := done + a;
    CutLinked(all, |done| + 1);
    assert all[..|done| + 1] == done + [n] && all[|done| + 1..] == a[1..];
    assert LinkedAt(all, |done|);
    assert forall i | 0 < i < |a| :: a[i] != n;
    assert Linked(b) by {
      forall i | 0 <= i < |b|
        ensures LinkedAt(b, i)
      {
        assert b[i] in b && old(LinkedAt(b, i));
      }
    }
    assert forall m | m in a[1..] :: m in a && m != n;
  }

  ghost predicate Among(s: seq<Node>, nodes: set<Node>) {
    forall n | n in s :: n in nodes
  }

  lemma MergeStarts(a: seq<Node>, b: seq<Node>)
    requires Linked(a) && Linked(b) && Apart(a, b)
    ensures Merging([], a, b) && [] + Merge(a, b, Key) == Merge(a, b, Key)
  {}

  lemma MergeStep(done: seq<Node>, a: seq<Node>, b: seq<Node>)
    requires Merging(done, a, b) && a != [] && b != []
    ensures a[0] !in done && b[0] !in done && a[0] != b[0]
    ensures KeyLess(a[0], b[0], Key) ==> done + Merge(a, b, Key) == done + [a[0]] + Merge(a[1..], b, Key)
    ensures !KeyLess(a[0], b[0], Key) ==> done + Merge(a, b, Key) == done + [b[0]] + Merge(a, b[1..], Key)
  {
    assert a[0] in a && b[0] in b;
  }

  lemma MergeEnds(done: seq<Node>, a: seq<Node>, b: seq<Node>)
    requires Merging(done, a, b) && (a == [] || b == []) && (done == [] || a != [] || b != [])
    ensures Open(done) && Linked(a) && Linked(b) && Apart(done, a) && Apart(done, b)
    ensures done + Merge(a, b, Key) == if a == [] then done + b else done + a
    ensures done == [] ==> done + a == a && done + b == b
  {}

  /** The merge loop and the two tails. */
  method MergeLists(first0: Node?, second0: Node?, ghost a0: seq<Node>, ghost b0: seq<Node>, ghost nodes: set<Node>)
    returns (list: Node?)
    requires Among(a0, nodes) && Among(b0, nodes)
    requires Linked(a0) && Linked(b0) && Apart(a0, b0) && first0 == NodeAt(a0, 0) && second0 == NodeAt(b0, 0)
    modifies nodes
    ensures Linked(Merge(a0, b0, Key)) && list == NodeAt(Merge(a0, b0, Key), 0)
    ensures list in {first0, second0} && (list != null ==> list.prev == old(list.prev))
  {
    hide Linked, Open, Merge, Merging;
    var first, second, ptr: Node? := first0, second0, null;
    list := null;
    ghost var done: seq<Node>, a, b := [], a0, b0;
    MergeStarts(a0, b0);
    while first != null && second != null
      invariant Merging(done, a, b) && Among(done, nodes) && Among(a, nodes) && Among(b, nodes)
      invariant LastOf(done, ptr) && list == NodeAt(done, 0) && first == NodeAt(a, 0) && second == NodeAt(b, 0)
      invariant list != null ==> list in {first0, second0} && list.prev == old(list.prev)
      invariant done == [] ==> first == first0 && second == second0 && unchanged(nodes`prev)
      invariant done + Merge(a, b, Key) == Merge(a0, b0, Key) && (done == [] || a != [] || b != [])
      decreases |a| + |b|
    {
      var order := StrCaseCmp(first.name, second.name);
      MergeStep(done, a, b);
      assert first in a && second in b && (ptr != null ==> ptr in done) && (list != null ==> list in done);
      if order < 0 {
        Take(ptr, first, done, a, b);
        if list == null {
          list := first;
        }
        ptr, first := first, first.next;
        done, a := done + [a[0]], a[1..];
      } else {
        MergingTurns(done, a, b);
        Take(ptr, second, done, b, a);
        if list == null {
          list := second;
        }
        ptr, second := second, second.next;
        done, b := done + [b[0]], b[1..];
        MergingTurns(done, b, a);
      }
    }
    MergeEnds(done, a, b);
    assert (first != null ==> first in a) && (second != null ==> second in b) && (ptr != null ==> ptr in done);
    if first != null {
      if list == null {
        return first;
      }
      Join(ptr, first, done, a);
    }
    if second != null {
      if list == null {
        return second;
      }
      Join(ptr, second, done, b);
    }
  }

  /** `cJSONUtils_SortList`: relinks the nodes in the order of `SortBy`. */
  method SortList(list: Node?, ghost s: seq<Node>) returns (r: Node?)
    requires Linked(s) && list == NodeAt(s, 0)
    modifies s
    ensures Linked(SortBy(s, Key)) && r == NodeAt(SortBy(s, Key), 0)
    ensures multiset(SortBy(s, Key)) == multiset(s) && Sorted(SortBy(s, Key), Key)
    ensures r != null ==> r.prev == old(r.prev)
    decreases |s|, 1
  {
    hide Ascending, Sorted, NoRepeats, Linked, SortBy, Merge;
    SortPermutes(s, Key);
    SortSorts(s, Key);
    SortCases(s);
    LinkedStart(s);
    if list == null {
      return list;
    }
    if list.next == null {
      return list;
    }
    var ascending := IsAscending(list, s);
    if ascending {
      return list;
    }
    var second: Node? := Middle(list, s);
    Split(second, s);
    r := SortHalves(list, second, s, (|s| + 1) / 2);
  }

  method SortHalves(list: Node, second: Node?, ghost s: seq<Node>, ghost m: nat) returns (r: Node?)
    requires NoRepeats(s) && 0 < m < |s| && list == s[0] && second == s[m] && Linked(s[..m]) && Linked(s[m..])
    modifies s
    ensures Linked(Merge(SortBy(s[..m], Key), SortBy(s[m..], Key), Key))
    ensures r == NodeAt(Merge(SortBy(s[..m], Key), SortBy(s[m..], Key), Key), 0)
    ensures r != null ==> r in s && r.prev == old(r.prev)
    decreases |s|, 0
  {
    hide Linked, SortBy, Merge, NoRepeats;
    ghost var a, b := s[..m], s[m..];
    HalvesApart(s, m);
    var first: Node? := SortHalf(list, a, b);
    var rest: Node? := SortHalf(second, b, SortBy(a, Key));
    assert first != null ==> first in SortBy(a, Key) && first !in b;
    assert rest != null ==> rest in SortBy(b, Key) && rest in b && rest !in a;
    ghost var nodes := set n | n in s;
    r := MergeLists(first, rest, SortBy(a, Key), SortBy(b, Key), nodes);
  }

  lemma HalvesApart(s: seq<Node>, m: nat)
    requires NoRepeats(s) && m <= |s|
    ensures Apart(s[..m], s[m..]) && Apart(s[m..], s[..m])
    ensures NodeAt(s[..m], 0) == if m > 0 then NodeAt(s, 0) else null
    ensures forall n | n in s[..m] || n in s[m..] :: n in s
  {}

  lemma SameNodes(s: seq<Node>, t: seq<Node>)
    requires multiset(s) == multiset(t)
    ensures forall n | n in t :: n in s
  {
    forall n | n in t
      ensures n in s
    {
      assert n in multiset(t);
    }
  }

  lemma SortCases(s: seq<Node>)
    ensures |s| < 2 || Ascending(s, Key) ==> SortBy(s, Key) == s
    ensures |s| >= 2 && !Ascending(s, Key) ==>
              SortBy(s, Key) == Merge(SortBy(s[..(|s| + 1) / 2], Key), SortBy(s[(|s| + 1) / 2..], Key), Key)
  {
    hide Ascending;
  }

  lemma LinkedStart(s: seq<Node>)
    requires Linked(s)
    ensures NoRepeats(s) && (s != [] ==> (s[0].next == null <==> |s| == 1))
  {
    if s != [] {
      assert LinkedAt(s, 0);
    }
  }

  /** Sorts one half and leaves the other list alone. */
  method SortHalf(list: Node?, ghost s: seq<Node>, ghost other: seq<Node>) returns (r: Node?)
    requires Linked(s) && list == NodeAt(s, 0) && Linked(other) && Apart(s, other)
    modifies s
    ensures Linked(SortBy(s, Key)) && r == NodeAt(SortBy(s, Key), 0)
    ensures Linked(other) && Apart(SortBy(s, Key), other) && Apart(other, SortBy(s, Key))
    ensures forall n | n in SortBy(s, Key) :: n in s
    ensures r != null ==> r.prev == old(r.prev)
    decreases |s|, 2
  {
    r := SortList(list, s);
    SameNodes(s, SortBy(s, Key));
    forall i | 0 <= i < |other|
      ensures LinkedAt(other, i)
    {
      assert other[i] in other && old(LinkedAt(other, i));
    }
  }

  lemma SortTwo(b: Node, a: Node)
    requires b.name == [98] && a.name == [97]
    ensures SortBy([b, a], Key) == [a, b]
  {
    assert Key(b) == [98] && Key(a) == [97];
    var s := [b, a];
    assert !KeyLess(s[0], s[1], Key);
    assert s[..1] == [b] && s[1..] == [a];
    SortCases(s);
    SortCases([b]);
    SortCases([a]);
    assert Merge([b], [a], Key) == [a] + Merge([b], [a][1..], Key);
  }

  /** Sorting leaves the new head's `prev` as it was; detaching that head then ties the list into a loop. */
  method StaleHeadBreaksDetach() returns (list: Parent, detached: Node?)
    ensures list.child != null && list.child.next == list.child
  {
    hide SortBy, Merge, Ascending;
    var b := new Node([98]);
    var a := new Node([97]);
    list := new Parent();
    list.Add(b, [b]);
    list.Add(a, [a]);
    ghost var s := [b, a];
    assert list.nodes == s && LinkedAt(s, 0) && LinkedAt(s, 1);
    SortTwo(b, a);
    list.Sort();
    assert list.nodes == [a, b] && LinkedAt(list.nodes, 0);
    assert list.nodes[1..] == [b];
    detached := list.Detach(0);
  }
}
