/**
 * Reachability over a set of directed edges, and the components it gives when the edges are symmetric.
 */
module Graphs {
  ghost function Reach<T>(edges: set<(T, T)>, a: T, steps: nat): set<T> {
    if steps == 0 then {a}
    else
      var before := Reach(edges, a, steps - 1);
      before + set e | e in edges && e.0 in before :: e.1
  }

  ghost predicate Connected<T>(edges: set<(T, T)>, a: T, b: T) {
    exists steps: nat :: b in Reach(edges, a, steps)
  }

  ghost predicate Symmetric<T>(edges: set<(T, T)>) {
    forall e | e in edges :: (e.1, e.0) in edges
  }

  /** No edge leads out of `s`. */
  ghost predicate Closed<T>(edges: set<(T, T)>, s: set<T>) {
    forall e | e in edges && e.0 in s :: e.1 in s
  }

  ghost function Component<T>(nodes: set<T>, edges: set<(T, T)>, a: T): set<T> {
    set b | b in nodes && Connected(edges, a, b)
  }

  ghost function Components<T>(nodes: set<T>, edges: set<(T, T)>, roots: set<T>): set<set<T>> {
    set a | a in roots :: Component(nodes, edges, a)
  }

  lemma ConnectedToItself<T>(edges: set<(T, T)>, a: T)
    ensures Connected(edges, a, a)
  {
    assert a in Reach(edges, a, 0);
  }

  lemma ConnectedStep<T>(edges: set<(T, T)>, a: T, b: T, c: T)
    requires Connected(edges, a, b) && (b, c) in edges
    ensures Connected(edges, a, c)
  {
    var steps: nat :| b in Reach(edges, a, steps);
    assert (b, c).1 in Reach(edges, a, steps + 1);
  }

  lemma {:induction false} ReachJoins<T>(edges: set<(T, T)>, a: T, b: T, c: T, steps: nat)
    requires Connected(edges, a, b) && c in Reach(edges, b, steps)
    ensures Connected(edges, a, c)
  {
    if steps > 0 && c !in Reach(edges, b, steps - 1) {
      var e :| e in edges && e.0 in Reach(edges, b, steps - 1) && e.1 == c;
      ReachJoins(edges, a, b, e.0, steps - 1);
      assert e == (e.0, c);
      ConnectedStep(edges, a, e.0, c);
    } else if steps > 0 {
      ReachJoins(edges, a, b, c, steps - 1);
    }
  }

  lemma ConnectedJoins<T>(edges: set<(T, T)>, a: T, b: T, c: T)
    requires Connected(edges, a, b) && Connected(edges, b, c)
    ensures Connected(edges, a, c)
  {
    var steps: nat :| c in Reach(edges, b, steps);
    ReachJoins(edges, a, b, c, steps);
  }

  lemma {:induction false} ReachTurns<T>(edges: set<(T, T)>, a: T, b: T, steps: nat)
    requires Symmetric(edges) && b in Reach(edges, a, steps)
    ensures Connected(edges, b, a)
  {
    if steps == 0 {
      ConnectedToItself(edges, a);
    } else if b in Reach(edges, a, steps - 1) {
      ReachTurns(edges, a, b, steps - 1);
    } else {
      var e :| e in edges && e.0 in Reach(edges, a, steps - 1) && e.1 == b;
      ReachTurns(edges, a, e.0, steps - 1);
      ConnectedToItself(edges, b);
      ConnectedStep(edges, b, b, e.0);
      ConnectedJoins(edges, b, e.0, a);
    }
  }

  lemma ConnectedTurns<T>(edges: set<(T, T)>, a: T, b: T)
    requires Symmetric(edges) && Connected(edges, a, b)
    ensures Connected(edges, b, a)
  {
    var steps: nat :| b in Reach(edges, a, steps);
    ReachTurns(edges, a, b, steps);
  }

  lemma {:induction false} ClosedReach<T>(edges: set<(T, T)>, s: set<T>, a: T, steps: nat)
    requires Closed(edges, s) && a in s
    ensures Reach(edges, a, steps) <= s
  {
    if steps > 0 {
      ClosedReach(edges, s, a, steps - 1);
    }
  }

  /** What is connected to a member of a closed set is a member too. */
  lemma ClosedContains<T>(edges: set<(T, T)>, s: set<T>, a: T, b: T)
    requires Closed(edges, s) && a in s && Connected(edges, a, b)
    ensures b in s
  {
    var steps: nat :| b in Reach(edges, a, steps);
    ClosedReach(edges, s, a, steps);
  }

  /** Connected nodes have the same component. */
  lemma SameComponent<T>(nodes: set<T>, edges: set<(T, T)>, a: T, b: T)
    requires Symmetric(edges) && Connected(edges, a, b)
    ensures Component(nodes, edges, a) == Component(nodes, edges, b)
  {
    ConnectedTurns(edges, a, b);
    forall c | c in nodes
      ensures Connected(edges, a, c) <==> Connected(edges, b, c)
    {
      if Connected(edges, a, c) {
        ConnectedJoins(edges, b, a, c);
      }
      if Connected(edges, b, c) {
        ConnectedJoins(edges, a, b, c);
      }
    }
  }

  /** As many components as there are pairwise unconnected representatives. */
  lemma {:induction false} ComponentCount<T>(nodes: set<T>, edges: set<(T, T)>, roots: set<T>)
    requires Symmetric(edges) && roots <= nodes
    requires forall a, b | a in roots && b in roots && Connected(edges, a, b) :: a == b
    ensures |Components(nodes, edges, roots)| == |roots|
  {
    var all := Components(nodes, edges, roots);
    if roots == {} {
      assert all == {};
    } else {
      var r :| r in roots;
      var rest := roots - {r};
      ComponentCount(nodes, edges, rest);
      var fewer := Components(nodes, edges, rest);
      assert all == fewer + {Component(nodes, edges, r)};
      forall a | a in rest
        ensures Component(nodes, edges, a) != Component(nodes, edges, r)
      {
        assert !Connected(edges, a, r);
        ConnectedToItself(edges, r);
        assert r in Component(nodes, edges, r) && r !in Component(nodes, edges, a);
      }
    }
  }
}
