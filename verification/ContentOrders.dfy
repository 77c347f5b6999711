/**
 * The order of a configuration node's children: one list of entries for all child types, each entry naming the type
 * and the position among the children of that type.
 */
module ContentOrders {
  import opened Sequences

  type TypeId = nat

  datatype Entry = Entry(id: TypeId, index: nat)

  /** The two ways in which the validation throws carry what their messages report. */
  datatype Outcome = Accepted | InvalidIndex(index: nat) | Unregistered(count: nat)

  /** The indices of the entries of one type, in order. */
  function IndicesOf(order: seq<Entry>, id: TypeId): seq<nat> {
    if order == [] then []
    else
      var before := IndicesOf(order[..|order| - 1], id);
      var last := order[|order| - 1];
      if last.id == id then before + [last.index] else before
  }

  /** Crossing the indices off a set: the outcome of the validation from there on. */
  function CrossOff(indices: seq<nat>, valid: set<nat>): Outcome {
    if indices == [] then if valid == {} then Accepted else Unregistered(|valid|)
    else if indices[0] !in valid then InvalidIndex(indices[0])
    else CrossOff(indices[1..], valid - {indices[0]})
  }

  function UpTo(n: nat): (r: set<nat>)
    ensures forall i: nat :: i in r <==> i < n
  {
    if n == 0 then {} else UpTo(n - 1) + {n - 1}
  }

  /** `s` is a permutation of 0 to n - 1. */
  ghost predicate Permutation(s: seq<nat>, n: nat) {
    NoRepeats(s) && forall i: nat :: i in s <==> i < n
  }

  lemma {:induction false} CrossOffDecides(s: seq<nat>, valid: set<nat>)
    ensures CrossOff(s, valid) == Accepted <==> NoRepeats(s) && forall i: nat :: i in s <==> i in valid
  {
    if s != [] {
      var rest := s[1..];
      assert s == [s[0]] + rest;
      CrossOffDecides(rest, valid - {s[0]});
      if NoRepeats(s) && forall i: nat :: i in s <==> i in valid {
        forall i: nat
          ensures i in rest <==> i in valid - {s[0]}
        {
          if i in rest {
            var k :| 0 <= k < |rest| && rest[k] == i;
            assert s[0] != s[k + 1];
          }
        }
      }
      if NoRepeats(rest) && (forall i: nat :: i in rest <==> i in valid - {s[0]}) && s[0] in valid {
        assert s[0] !in rest;
        forall i, j | 0 <= i < j < |s|
          ensures s[i] != s[j]
        {
          assert s[j] == rest[j - 1];
        }
      }
      assert NoRepeats(s) ==> NoRepeats(rest) by {
        forall i, j | NoRepeats(s) && 0 <= i < j < |rest|
          ensures rest[i] != rest[j]
        {
          assert s[i + 1] != s[j + 1];
        }
      }
    }
  }

  /** The validation accepts exactly the permutations. */
  lemma AcceptsPermutations(s: seq<nat>, n: nat)
    ensures CrossOff(s, UpTo(n)) == Accepted <==> Permutation(s, n)
  {
    CrossOffDecides(s, UpTo(n));
  }

  lemma PermutationGrows(s: seq<nat>, n: nat)
    ensures Permutation(s + [n], n + 1) <==> Permutation(s, n)
  {
    var t := s + [n];
    assert t[|s|] == n && forall k | 0 <= k < |s| :: t[k] == s[k];
    assert forall i: nat :: i in t <==> i in s || i == n;
    if Permutation(t, n + 1) {
      forall k | 0 <= k < |s|
        ensures s[k] != n
      {
        assert t[k] != t[|s|];
      }
      assert forall i: nat :: i in s <==> i < n;
      assert NoRepeats(s) by {
        forall i, j | 0 <= i < j < |s|
          ensures s[i] != s[j]
        {
          assert t[i] != t[j];
        }
      }
    }
    if Permutation(s, n) {
      forall i, j | 0 <= i < j < |t|
        ensures t[i] != t[j]
      {
        assert s[i] in s;
      }
    }
  }

  method AllIndices(n: nat) returns (valid: set<nat>)
    ensures valid == UpTo(n)
  {
    valid := {};
    var i := 0;
    while i < n
      invariant i <= n && valid == UpTo(i)
    {
      valid := valid + {i};
      i := i + 1;
    }
  }

  /** A parent node with its children by type. */
  class Parent<T> {
    var children: map<TypeId, seq<T>>
    var contentOrder: seq<Entry>

    constructor ()
      ensures children == map[] && contentOrder == []
    {
      children := map[];
      contentOrder := [];
    }

    function ChildrenOf(id: TypeId): seq<T>
      reads this`children
    {
      if id in children then children[id] else []
    }

    /** Whether the entries of a type are a permutation of the positions of its children. */
    ghost predicate InOrder(id: TypeId)
      reads this
    {
      Permutation(IndicesOf(contentOrder, id), |ChildrenOf(id)|)
    }

    /** `validateContentOrder` */
    method ValidateContentOrder(id: TypeId) returns (r: Outcome)
      ensures r == Accepted <==> InOrder(id)
      ensures r == CrossOff(IndicesOf(contentOrder, id), UpTo(|ChildrenOf(id)|))
    {
      var valid := AllIndices(|ChildrenOf(id)|);
      hide CrossOff, IndicesOf, UpTo, Permutation;
      ghost var all := IndicesOf(contentOrder, id);
      assert all[..0] == [] == IndicesOf(contentOrder[..0], id) by {
        NoIndices(contentOrder[..0], id);
      }
      AcceptsPermutations(all, |ChildrenOf(id)|);
      var i := 0;
      assert contentOrder[..|contentOrder|] == contentOrder && all[0..] == all;
      ghost var seen := 0;
      while i < |contentOrder|
        invariant i <= |contentOrder| && seen <= |all| && all[..seen] == IndicesOf(contentOrder[..i], id)
        invariant CrossOff(all, UpTo(|ChildrenOf(id)|)) == CrossOff(all[seen..], valid)
      {
        var entry := contentOrder[i];
        IndicesStep(contentOrder, i, id);
        if entry.id == id {
          IndicesPrefix(contentOrder, i + 1, id);
          NextIndex(all, seen, entry.index, valid);
          if entry.index !in valid {
            return InvalidIndex(entry.index);
          }
          valid := valid - {entry.index};
          seen := seen + 1;
        }
        i := i + 1;
      }
      CrossOffEnds(all[seen..], valid);
      r := if valid != {} then Unregistered(|valid|) else Accepted;
    }

    /** `push_back` */
    method PushBack(child: T, id: TypeId)
      modifies this
      ensures ChildrenOf(id) == old(ChildrenOf(id)) + [child]
      ensures contentOrder == old(contentOrder) + [Entry(id, |old(ChildrenOf(id))|)]
      ensures InOrder(id) <==> old(InOrder(id))
      ensures forall other: TypeId | other != id ::
        ChildrenOf(other) == old(ChildrenOf(other)) && (InOrder(other) <==> old(InOrder(other)))
    {
      ghost var n := |ChildrenOf(id)|;
      PermutationGrows(IndicesOf(contentOrder, id), n);
      children := children[id := ChildrenOf(id) + [child]];
      contentOrder := contentOrder + [Entry(id, |ChildrenOf(id)| - 1)];
      assert contentOrder[..|contentOrder| - 1] == old(contentOrder);
    }
  }

  lemma NextIndex(all: seq<nat>, seen: nat, index: nat, valid: set<nat>)
    requires seen <= |all| && all[..seen] + [index] <= all
    ensures seen < |all| && all[..seen + 1] == all[..seen] + [index]
    ensures CrossOff(all[seen..], valid) ==
      if index !in valid then InvalidIndex(index) else CrossOff(all[seen + 1..], valid - {index})
  {
    assert all[seen] == (all[..seen] + [index])[seen] && all[seen..][1..] == all[seen + 1..];
  }

  lemma CrossOffEnds(rest: seq<nat>, valid: set<nat>)
    requires rest == []
    ensures CrossOff(rest, valid) == if valid == {} then Accepted else Unregistered(|valid|)
  {}

  lemma NoIndices(order: seq<Entry>, id: TypeId)
    requires order == []
    ensures IndicesOf(order, id) == []
  {}

  lemma IndicesStep(order: seq<Entry>, i: nat, id: TypeId)
    requires i < |order|
    ensures IndicesOf(order[..i + 1], id) ==
      IndicesOf(order[..i], id) + if order[i].id == id then [order[i].index] else []
  {
    assert order[..i + 1][..i] == order[..i];
  }

  lemma {:induction false} IndicesPrefix(order: seq<Entry>, i: nat, id: TypeId)
    requires i <= |order|
    ensures IndicesOf(order[..i], id) <= IndicesOf(order, id)
    decreases |order| - i
  {
    if i == |order| {
      assert order[..i] == order;
    } else {
      IndicesStep(order, i, id);
      IndicesPrefix(order, i + 1, id);
    }
  }
}
