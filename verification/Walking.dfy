/** Walking sorted member lists from the front, as the merge loops of the patch code do. */
module Walking {
  import opened Bytes
  import opened Comparing
  import opened Members
  import opened Options
  import opened Sorting
  import opened Trees

  /** Sorted, well-named members: what the merge loop walks. */
  ghost predicate Walkable(ms: seq<Member>) {
    AllWellNamed(ms) && StrictlySorted(ms, Folded)
  }

  /** The first name of a sorted list is not in its tail, nor in a list that starts after it. */
  lemma TailLookup(ms: seq<Member>, k: CString)
    requires ms != [] && Walkable(ms)
    ensures Walkable(ms[1..]) && WellNamed(ms[0].value)
    ensures Lookup(ms[1..], k) == if k == Folded(ms[0]) then None else Lookup(ms, k)
  {
    StrictTail(ms);
    LookupFound(ms[1..], k);
    assert ms[0] in ms;
    assert forall m | m in ms[1..] :: Folded(m) != Folded(ms[0]) by {
      FieldNames(ms[1..], IgnoreCase);
    }
  }

  lemma LaterLookup(k: CString, ms: seq<Member>)
    requires Walkable(ms) && (ms == [] || Less(k, Folded(ms[0])))
    ensures Lookup(ms, k).None?
  {
    if ms != [] {
      NotBefore(k, ms);
      LookupMeaning(ms, k);
    }
  }

  ghost predicate DroppedAt(from: seq<Member>, from': seq<Member>, k0: CString) {
    forall k :: Lookup(from', k) == if k == k0 then None else Lookup(from, k)
  }

  lemma DropHead(ms: seq<Member>)
    requires ms != [] && Walkable(ms)
    ensures Walkable(ms[1..]) && WellNamed(ms[0].value) && DroppedAt(ms, ms[1..], Folded(ms[0]))
    ensures MembersDepth(ms[1..]) <= MembersDepth(ms) && Depth(ms[0].value) <= MembersDepth(ms)
    ensures Lookup(ms, Folded(ms[0])) == Some(ms[0].value)
  {
    TailLookup(ms, Folded(ms[0]));
    forall k ensures Lookup(ms[1..], k) == if k == Folded(ms[0]) then None else Lookup(ms, k) {
      TailLookup(ms, k);
    }
  }
}
