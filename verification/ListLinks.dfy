/**
 * What the flag of `PatchLinks` means for the linked nodes of one child list: while it is intact the list is well
 * formed, while it is stale the list is right but for the first child's `prev`, and it breaks where that child is
 * detached.
 */
module ListLinks {
  import opened ChildLists
  import opened PatchLinks
  import opened Sorting

  /** What patches do to the children of one object. */
  datatype ListStep = SortStep | AppendStep(item: Node) | DetachStep(which: int)

  /** The children as `Members` and `Trees` see them. */
  function NodesAfter(nodes: seq<Node>, step: ListStep): seq<Node> {
    match step
    case SortStep => SortBy(nodes, Key)
    case AppendStep(item) => nodes + [item]
    case DetachStep(which) =>
      var k := Position(which, |nodes|);
      if k < |nodes| then nodes[..k] + nodes[k + 1..] else nodes
  }

  /** A sort that moves another child to the front leaves it with a `prev`. */
  function LinksAfter(links: Links, nodes: seq<Node>, step: ListStep): Links {
    match step
    case SortStep => if nodes != [] && NodeAt(SortBy(nodes, Key), 0) != nodes[0] then Stale else links
    case AppendStep(_) => links
    case DetachStep(which) => if links.Stale? && which <= 0 then Broken else links
  }

  /** The list is right up to the `prev` of its first child, which is null exactly while the list is intact. */
  ghost predicate Stands(list: Parent, links: Links)
    reads list, list.nodes
  {
    && list.Sortable() && (list.nodes != [] ==> list.nodes[0].prev != list.nodes[0])
    && (links.Intact? ==> list.Valid()) && (links.Stale? ==> list.nodes != [] && list.nodes[0].prev != null)
  }

  /** A list in order is not relinked, so that its sort harms nothing. */
  lemma InOrderStays(links: Links, nodes: seq<Node>)
    requires Ascending(nodes, Key)
    ensures LinksAfter(links, nodes, SortStep) == links && NodesAfter(nodes, SortStep) == nodes
  {}

  /**
   * One step on linked nodes. Short of breaking, the list goes on being what the sequence says. Where it breaks, the
   * node that the first child's `prev` points to ends up in front of the new first child; if it is one of the children,
   * the list is a loop.
   */
  method Perform(list: Parent, links: Links, step: ListStep) returns (ghost links1: Links)
    requires !links.Broken? && Stands(list, links)
    requires step.AppendStep? ==> step.item !in list.nodes && step.item.next == null && step.item.prev == null
    modifies list, list.nodes, list.Stray(), if step.AppendStep? then {step.item} else {}
    ensures links1 == LinksAfter(links, old(list.nodes), step) && list.nodes == NodesAfter(old(list.nodes), step)
    ensures !links1.Broken? ==> Stands(list, links1)
    ensures links1.Broken? ==> old(list.nodes[0].prev) != null && old(list.nodes[0].prev).next == list.child
    ensures links1.Broken? && old(list.nodes[0].prev in list.nodes[1..]) ==> !list.Sortable()
  {
    links1 := LinksAfter(links, list.nodes, step);
    match step {
      case SortStep => SortAll(list);
      case AppendStep(item) => list.Add(item, [item]);
      case DetachStep(which) =>
        ghost var stray := if list.nodes != [] then list.nodes[0].prev else null;
        var _ := list.Detach(which);
        if list.Sortable() && stray != null && stray in list.nodes {
          HeadFollows(list, stray);
        }
    }
  }

  /** In a list that is right no child comes before the first. */
  lemma HeadFollows(list: Parent, n: Node)
    requires list.Sortable() && n in list.nodes
    ensures n.next != list.child
  {
    var i :| 0 <= i < |list.nodes| && list.nodes[i] == n;
    assert LinkedAt(list.nodes, i);
  }

  method SortAll(list: Parent)
    requires list.Sortable() && (list.nodes != [] ==> list.nodes[0].prev != list.nodes[0])
    modifies list, list.nodes
    ensures list.Sortable() && list.nodes == SortBy(old(list.nodes), Key)
    ensures list.nodes != [] ==> old(list.nodes) != [] && list.nodes[0].prev != list.nodes[0]
    ensures list.nodes != [] && list.nodes[0] == old(list.nodes[0]) ==> list.nodes[0].prev == old(list.nodes[0].prev)
    ensures list.nodes != [] && list.nodes[0] != old(list.nodes[0]) ==> list.nodes[0].prev != null
    ensures old(list.Valid()) && list.nodes != [] && list.nodes[0] == old(list.nodes[0]) ==> list.Valid()
    ensures list.nodes == [] <==> old(list.nodes) == []
  {
    hide SortBy;
    ghost var was := list.nodes;
    SortPermutes(was, Key);
    SameNodes(was, SortBy(was, Key));
    if was != [] {
      assert SortBy(was, Key)[0] in was;
      ghost var i :| 0 <= i < |was| && was[i] == SortBy(was, Key)[0];
      assert LinkedAt(was, i);
    }
    list.Sort();
  }
}
