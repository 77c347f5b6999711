/**
 * Synchronization domains: parser variables that can influence each other through formulas share a mutex.
 * Edges join an input of a calculated variable with the parser variable of its output, where that one survives.
 */
module Domains {
  import opened CalculatedVariables
  import opened Graphs

  /** Constants are the parser variables of formulas without inputs; `but` may not be marked yet. */
  ghost predicate ConstantsMarked(net: Network, but: set<ParserVariable>)
    requires Wired(net)
    reads net.vars`listeners, net.vars`calculation, net.parsers`notifiedVariables, net.parsers`isConstant
    reads net.calcs`valueVariables, net.calcs`statusVariables, net.calcs`notifiedVariable
  {
    forall p | p in net.parsers && p !in but :: p.isConstant <==>
      && p.variable.calculation != null
      && p.variable.calculation.valueVariables + p.variable.calculation.statusVariables == []
  }

  /** A calculated variable points back to the parser variable of its output, those in `but` excepted. */
  ghost predicate Backlinked(net: Network, but: set<ParserVariable>)
    requires Wired(net)
    reads net.vars`listeners, net.vars`calculation, net.parsers`notifiedVariables
    reads net.calcs`valueVariables, net.calcs`statusVariables, net.calcs`notifiedVariable
  {
    forall p | p in net.parsers && p !in but && p.variable.calculation != null ::
      p.variable.calculation.notifiedVariable == p
  }

  /** Whether `p` is an input of the formula whose output `q` is. */
  ghost predicate Feeds(net: Network, p: ParserVariable, q: ParserVariable)
    requires Wired(net) && q in net.parsers
    reads net.vars`listeners, net.vars`calculation, net.parsers`notifiedVariables
    reads net.calcs`valueVariables, net.calcs`statusVariables, net.calcs`notifiedVariable
  {
    q.variable.calculation != null && UsedBy(p, q.variable.calculation)
  }

  /** The parser variables whose value can change. */
  ghost function Nodes(net: Network): set<ParserVariable>
    reads net.parsers`isConstant
  {
    set p | p in net.parsers && !p.isConstant
  }

  ghost function Edges(net: Network): set<(ParserVariable, ParserVariable)>
    requires Wired(net)
    reads net.vars`listeners, net.vars`calculation, net.parsers`notifiedVariables, net.parsers`isConstant
    reads net.calcs`valueVariables, net.calcs`statusVariables, net.calcs`notifiedVariable
  {
    set p, q | p in Nodes(net) && q in Nodes(net) && (Feeds(net, p, q) || Feeds(net, q, p)) :: (p, q)
  }

  lemma EdgesTurn(net: Network)
    requires Wired(net)
    ensures Symmetric(Edges(net))
    ensures forall e | e in Edges(net) :: e.0 in Nodes(net) && e.1 in Nodes(net)
  {}

  /** What an output is fed by, and what an input feeds, are its neighbours. */
  lemma EdgeToInput(net: Network, pv: ParserVariable, q: ParserVariable)
    requires Wired(net) && pv in Nodes(net) && pv.variable.calculation != null
    requires q in pv.variable.calculation.valueVariables + pv.variable.calculation.statusVariables
    ensures q in net.parsers && (!q.isConstant ==> (pv, q) in Edges(net))
  {
    assert pv.variable in net.vars && pv.variable.calculation in net.calcs;
  }

  lemma EdgeToOutput(net: Network, pv: ParserVariable, c: CalculatedVariable)
    requires Wired(net) && pv in Nodes(net) && c in pv.notifiedVariables && c.notifiedVariable != null
    ensures c.notifiedVariable in net.parsers
    ensures !c.notifiedVariable.isConstant ==> (pv, c.notifiedVariable) in Edges(net)
  {
    assert c in net.calcs && c.notifiedVariable.variable == c.node && c.node.calculation == c;
  }

  /** The only neighbours of `pv` are the ones that the search visits. */
  lemma NeighboursVisited(net: Network, pv: ParserVariable, q: ParserVariable)
    requires Wired(net) && Backlinked(net, {}) && (pv, q) in Edges(net)
    ensures (pv.variable.calculation != null && UsedBy(q, pv.variable.calculation)) ||
            (exists c | c in pv.notifiedVariables :: c.notifiedVariable == q)
  {
    if Feeds(net, pv, q) {
      var c := q.variable.calculation;
      assert q.variable in net.vars && c in net.calcs && UsedBy(pv, c);
      assert pv in c.valueVariables + c.statusVariables;
      assert c in pv.notifiedVariables && c.notifiedVariable == q;
    }
  }

  // ----- the search

  /** Everything is linked, except the parser variables in `but`. */
  ghost predicate ReadyBut(net: Network, but: set<ParserVariable>)
    reads net.vars`listeners, net.vars`calculation, net.parsers`notifiedVariables, net.parsers`isConstant
    reads net.calcs`valueVariables, net.calcs`statusVariables, net.calcs`notifiedVariable
  {
    Wired(net) && Backlinked(net, but) && ConstantsMarked(net, but)
  }

  ghost predicate Ready(net: Network)
    reads net.vars`listeners, net.vars`calculation, net.parsers`notifiedVariables, net.parsers`isConstant
    reads net.calcs`valueVariables, net.calcs`statusVariables, net.calcs`notifiedVariable
  {
    ReadyBut(net, {})
  }

  ghost function Unmarked(net: Network): set<ParserVariable>
    reads net.parsers`isConstant, net.parsers`synchronizer
  {
    set p | p in Nodes(net) && p.synchronizer == null
  }

  /** Every neighbour of `p` has a synchronizer. */
  ghost predicate Surrounded(net: Network, p: ParserVariable)
    requires Wired(net)
    reads net.vars`listeners, net.vars`calculation, net.parsers`notifiedVariables, net.parsers`isConstant
    reads net.calcs`valueVariables, net.calcs`statusVariables, net.calcs`notifiedVariable, net.parsers`synchronizer
  {
    forall e | e in Edges(net) && e.0 == p :: e.1.synchronizer != null
  }

  /** What the search from `pv` has marked, apart from `pv` itself, carries `s`, is connected to `pv` and surrounded. */
  ghost predicate Spread(net: Network, pv: ParserVariable, s: Synchronizer, unmarked: set<ParserVariable>)
    requires Wired(net) && unmarked <= net.parsers
    reads net.vars`listeners, net.vars`calculation, net.parsers`notifiedVariables, net.parsers`isConstant
    reads net.calcs`valueVariables, net.calcs`statusVariables, net.calcs`notifiedVariable, net.parsers`synchronizer
  {
    forall p | p in unmarked && p != pv && p.synchronizer != null ::
      p.synchronizer == s && Connected(Edges(net), pv, p) && Surrounded(net, p)
  }

  /** A search from a neighbour `q` extends the search from `pv`. */
  lemma SpreadJoins(net: Network, pv: ParserVariable, q: ParserVariable, s: Synchronizer,
                    unmarked: set<ParserVariable>, remaining: set<ParserVariable>)
    requires Wired(net) && remaining <= unmarked <= net.parsers && (pv, q) in Edges(net)
    requires q.synchronizer == s && Surrounded(net, q) && Spread(net, q, s, remaining)
    requires Spread(net, pv, s, unmarked - remaining)
    ensures Spread(net, pv, s, unmarked)
  {
    hide Edges;
    ConnectedToItself(Edges(net), pv);
    ConnectedStep(Edges(net), pv, pv, q);
    forall p | p in remaining && p != pv && p.synchronizer != null
      ensures Connected(Edges(net), pv, p)
    {
      if p != q {
        ConnectedJoins(Edges(net), pv, q, p);
      }
    }
  }

  lemma NothingSpread(net: Network, pv: ParserVariable, s: Synchronizer, unmarked: set<ParserVariable>)
    requires Wired(net) && unmarked <= net.parsers && forall p | p in unmarked && p != pv :: p.synchronizer == null
    ensures Spread(net, pv, s, unmarked)
  {}

  lemma SpreadWhole(net: Network, pv: ParserVariable, s: Synchronizer, unmarked: set<ParserVariable>)
    requires Wired(net) && unmarked <= net.parsers && Spread(net, pv, s, unmarked - {pv})
    ensures Spread(net, pv, s, unmarked)
  {}

  lemma AllVisited(net: Network, pv: ParserVariable)
    requires Ready(net) && pv in Nodes(net)
    requires pv.variable.calculation != null ==>
      forall q | q in pv.variable.calculation.valueVariables + pv.variable.calculation.statusVariables ::
        q.isConstant || q.synchronizer != null
    requires forall c | c in pv.notifiedVariables && c.notifiedVariable != null ::
      c.notifiedVariable.isConstant || c.notifiedVariable.synchronizer != null
    ensures Surrounded(net, pv)
  {
    forall e | e in Edges(net) && e.0 == pv
      ensures e.1.synchronizer != null
    {
      assert e == (pv, e.1);
      NeighboursVisited(net, pv, e.1);
      EdgesTurn(net);
    }
  }

  /** `dfsAndSetSynchronizer`: gives `s` to `pv` and to all that is reached from it through unmarked variables. */
  method Mark(pv: ParserVariable, s: Synchronizer, ghost net: Network)
    requires Ready(net) && pv in Nodes(net) && pv.synchronizer in {null, s}
    modifies net.parsers`synchronizer
    ensures pv.synchronizer == s && Surrounded(net, pv) && Spread(net, pv, s, old(Unmarked(net)))
    ensures forall p | p in net.parsers && p !in old(Unmarked(net)) && p != pv :: p.synchronizer == old(p.synchronizer)
    decreases Unmarked(net) - {pv}, 1
  {
    hide Edges, Connected, Surrounded, Spread, Wired, Backlinked, ConstantsMarked;
    ghost var unmarked := Unmarked(net);
    pv.synchronizer := s;
    NothingSpread(net, pv, s, unmarked);
    var c := pv.variable.calculation;
    if c != null {
      MarkInputs(pv, c.valueVariables, s, net, unmarked);
      MarkInputs(pv, c.statusVariables, s, net, unmarked);
    }
    MarkOutputs(pv, s, net, unmarked);
    AllVisited(net, pv);
  }

  /** The search towards the inputs of `pv`'s formula. */
  method MarkInputs(pv: ParserVariable, inputs: seq<ParserVariable>, s: Synchronizer, ghost net: Network,
                    ghost unmarked: set<ParserVariable>)
    requires Ready(net) && pv in Nodes(net) && pv.synchronizer == s && Unmarked(net) <= unmarked <= net.parsers
    requires Spread(net, pv, s, unmarked)
    requires pv.variable.calculation != null
    requires inputs in {pv.variable.calculation.valueVariables, pv.variable.calculation.statusVariables}
    modifies net.parsers`synchronizer
    ensures Unmarked(net) <= old(Unmarked(net)) && Spread(net, pv, s, unmarked)
    ensures forall p | p in net.parsers && p !in old(Unmarked(net)) :: p.synchronizer == old(p.synchronizer)
    ensures forall p | p in inputs :: p.isConstant || p.synchronizer != null
    decreases Unmarked(net) - {pv}, 0
  {
    hide Edges, Connected, Surrounded, Spread, Wired, Backlinked, ConstantsMarked;
    var i := 0;
    while i < |inputs|
      invariant i <= |inputs| && Unmarked(net) <= old(Unmarked(net)) && Spread(net, pv, s, unmarked)
      invariant forall p | p in net.parsers && p !in old(Unmarked(net)) :: p.synchronizer == old(p.synchronizer)
      invariant forall p | p in inputs[..i] :: p.isConstant || p.synchronizer != null
    {
      EdgeToInput(net, pv, inputs[i]);
      if inputs[i].synchronizer == null && !inputs[i].isConstant {
        MarkNext(pv, inputs[i], s, net, unmarked);
      }
      i := i + 1;
    }
  }

  /** The search towards the outputs of the formulas that use `pv`. */
  method MarkOutputs(pv: ParserVariable, s: Synchronizer, ghost net: Network, ghost unmarked: set<ParserVariable>)
    requires Ready(net) && pv in Nodes(net) && pv.synchronizer == s && Unmarked(net) <= unmarked <= net.parsers
    requires Spread(net, pv, s, unmarked)
    modifies net.parsers`synchronizer
    ensures Unmarked(net) <= old(Unmarked(net)) && Spread(net, pv, s, unmarked)
    ensures forall p | p in net.parsers && p !in old(Unmarked(net)) :: p.synchronizer == old(p.synchronizer)
    ensures forall c | c in pv.notifiedVariables && c.notifiedVariable != null ::
      c.notifiedVariable.isConstant || c.notifiedVariable.synchronizer != null
    decreases Unmarked(net) - {pv}, 0
  {
    hide Edges, Connected, Surrounded, Spread, Wired, Backlinked, ConstantsMarked;
    var i := 0;
    while i < |pv.notifiedVariables|
      invariant i <= |pv.notifiedVariables| && Unmarked(net) <= old(Unmarked(net)) && Spread(net, pv, s, unmarked)
      invariant forall p | p in net.parsers && p !in old(Unmarked(net)) :: p.synchronizer == old(p.synchronizer)
      invariant forall c | c in pv.notifiedVariables[..i] && c.notifiedVariable != null ::
        c.notifiedVariable.isConstant || c.notifiedVariable.synchronizer != null
    {
      var output := pv.notifiedVariables[i].notifiedVariable;
      if output != null {
        EdgeToOutput(net, pv, pv.notifiedVariables[i]);
        if output.synchronizer == null && !output.isConstant {
          MarkNext(pv, output, s, net, unmarked);
        }
      }
      i := i + 1;
    }
  }

  /** One recursive step of the search, from `pv` to its unmarked neighbour `q`. */
  method MarkNext(pv: ParserVariable, q: ParserVariable, s: Synchronizer, ghost net: Network,
                  ghost unmarked: set<ParserVariable>)
    requires Ready(net) && (pv, q) in Edges(net) && q in Unmarked(net)
    requires pv.synchronizer == s && Unmarked(net) <= unmarked <= net.parsers && Spread(net, pv, s, unmarked)
    modifies net.parsers`synchronizer
    ensures q.synchronizer == s && Unmarked(net) <= old(Unmarked(net)) && Spread(net, pv, s, unmarked)
    ensures forall p | p in net.parsers && p !in old(Unmarked(net)) :: p.synchronizer == old(p.synchronizer)
    decreases Unmarked(net) - {q}, 2
  {
    hide Edges, Connected, Wired, Backlinked, ConstantsMarked;
    EdgesTurn(net);
    Mark(q, s, net);
    forall p | p in unmarked - old(Unmarked(net)) && p != pv && p.synchronizer != null
      ensures p.synchronizer == s && Connected(Edges(net), pv, p) && Surrounded(net, p)
    {
      assert p.synchronizer == old(p.synchronizer);
      assert old(Surrounded(net, p));
      forall e | e in Edges(net) && e.0 == p
        ensures e.1.synchronizer != null
      {
        assert old(e.1.synchronizer) != null;
      }
    }
    SpreadJoins(net, pv, q, s, unmarked, old(Unmarked(net)));
  }

  // ----- domains

  /**
   * Every synchronizer in use belongs to a root that notifies something, is carried only by what is connected to
   * that root, and is the same on both ends of every edge.
   */
  ghost predicate Divided(net: Network, roots: map<Synchronizer, ParserVariable>)
    requires Wired(net)
    reads net.vars`listeners, net.vars`calculation, net.parsers`notifiedVariables, net.parsers`isConstant
    reads net.calcs`valueVariables, net.calcs`statusVariables, net.calcs`notifiedVariable, net.parsers`synchronizer
  {
    && (forall p | p in Nodes(net) && p.synchronizer != null ::
          p.synchronizer in roots && Connected(Edges(net), roots[p.synchronizer], p))
    && (forall s | s in roots ::
          roots[s] in Nodes(net) && roots[s].synchronizer == s && roots[s].notifiedVariables != [])
    && (forall e | e in Edges(net) :: e.0.synchronizer == e.1.synchronizer)
    && (forall p | p in net.parsers && p.isConstant :: p.synchronizer == null)
  }

  /** What stays divided among the variables outside `unmarked` while the search from a new root runs. */
  ghost predicate DividedOutside(net: Network, roots: map<Synchronizer, ParserVariable>, unmarked: set<ParserVariable>)
    requires Wired(net)
    reads net.vars`listeners, net.vars`calculation, net.parsers`notifiedVariables, net.parsers`isConstant
    reads net.calcs`valueVariables, net.calcs`statusVariables, net.calcs`notifiedVariable, net.parsers`synchronizer
  {
    && unmarked <= Nodes(net)
    && (forall p | p in Nodes(net) && p !in unmarked ::
          p.synchronizer != null && p.synchronizer in roots && Connected(Edges(net), roots[p.synchronizer], p))
    && (forall s | s in roots ::
          && roots[s] in Nodes(net) && roots[s] !in unmarked
          && roots[s].synchronizer == s && roots[s].notifiedVariables != [])
    && (forall e | e in Edges(net) :: e.0 in unmarked <==> e.1 in unmarked)
    && (forall e | e in Edges(net) && e.0 !in unmarked :: e.0.synchronizer == e.1.synchronizer)
    && (forall p | p in net.parsers && p.isConstant :: p.synchronizer == null)
  }

  lemma UnmarkedOutside(net: Network, roots: map<Synchronizer, ParserVariable>)
    requires Wired(net) && Divided(net, roots)
    ensures DividedOutside(net, roots, Unmarked(net))
  {
    hide Edges, Connected, Wired;
    EdgesTurn(net);
  }

  lemma DomainAdded(net: Network, pv: ParserVariable, s: Synchronizer, roots: map<Synchronizer, ParserVariable>,
                    unmarked: set<ParserVariable>)
    requires Wired(net) && DividedOutside(net, roots, unmarked) && s !in roots
    requires pv in unmarked && pv.synchronizer == s && pv.notifiedVariables != []
    requires Surrounded(net, pv) && Spread(net, pv, s, unmarked)
    ensures Divided(net, roots[s := pv])
  {
    hide Edges, Connected, Wired;
    EdgesTurn(net);
    ConnectedToItself(Edges(net), pv);
    forall e | e in Edges(net) && e.0 in unmarked
      ensures e.0.synchronizer == e.1.synchronizer
    {
      assert (e.1, e.0) in Edges(net);
    }
  }

  /** Gives a root its synchronizer and starts the search from it. */
  method MarkRoot(pv: ParserVariable, s: Synchronizer, ghost net: Network, ghost unmarked: set<ParserVariable>)
    requires Ready(net) && pv in unmarked && unmarked == Unmarked(net)
    modifies net.parsers`synchronizer
    ensures pv.synchronizer == s && Surrounded(net, pv) && Spread(net, pv, s, unmarked)
    ensures forall p | p in net.parsers && p !in unmarked :: p.synchronizer == old(p.synchronizer)
  {
    hide Edges, Connected, Surrounded, Wired, Backlinked, ConstantsMarked, Spread;
    pv.synchronizer := s;
    assert Unmarked(net) == unmarked - {pv};
    Mark(pv, s, net);
    SpreadWhole(net, pv, s, unmarked);
  }

  /** A new synchronizer for `pv` and for all that is connected to it. */
  method NewDomain(pv: ParserVariable, ghost net: Network, ghost roots: map<Synchronizer, ParserVariable>)
    returns (s: Synchronizer)
    requires Ready(net) && pv in Unmarked(net) && pv.notifiedVariables != [] && Divided(net, roots)
    modifies net.parsers`synchronizer
    ensures fresh(s) && s !in roots && Divided(net, roots[s := pv]) && pv.synchronizer == s
    ensures forall p | p in net.parsers && old(p.synchronizer) != null :: p.synchronizer == old(p.synchronizer)
  {
    hide Edges, Connected, Surrounded, Wired, Backlinked, ConstantsMarked, Spread, Divided;
    s := new Synchronizer();
    ghost var unmarked := Unmarked(net);
    UnmarkedOutside(net, roots);
    MarkRoot(pv, s, net, unmarked);
    EdgesTurn(net);
    assert DividedOutside(net, roots, unmarked);
    DomainAdded(net, pv, s, roots, unmarked);
  }

  /** Some variable connected to `p` notifies something. */
  ghost predicate Notifies(net: Network, p: ParserVariable)
    requires Wired(net)
    reads net.vars`listeners, net.vars`calculation, net.parsers`notifiedVariables, net.parsers`isConstant
    reads net.calcs`valueVariables, net.calcs`statusVariables, net.calcs`notifiedVariable
  {
    exists r | r in Nodes(net) :: r.notifiedVariables != [] && Connected(Edges(net), p, r)
  }

  /** Two variables share a mutex exactly when they are connected and their component notifies something. */
  ghost predicate SharedExactly(net: Network)
    requires Wired(net)
    reads net.vars`listeners, net.vars`calculation, net.parsers`notifiedVariables, net.parsers`isConstant
    reads net.calcs`valueVariables, net.calcs`statusVariables, net.calcs`notifiedVariable, net.parsers`synchronizer
  {
    forall p, q | p in Nodes(net) && q in Nodes(net) ::
      p.synchronizer != null && p.synchronizer == q.synchronizer <==> Connected(Edges(net), p, q) && Notifies(net, p)
  }

  /** The components that notify something. */
  ghost function NotifyingComponents(net: Network): set<set<ParserVariable>>
    requires Wired(net)
    reads net.vars`listeners, net.vars`calculation, net.parsers`notifiedVariables, net.parsers`isConstant
    reads net.calcs`valueVariables, net.calcs`statusVariables, net.calcs`notifiedVariable
  {
    set p | p in Nodes(net) && p.notifiedVariables != [] :: Component(Nodes(net), Edges(net), p)
  }

  /** Every variable that notifies something has a synchronizer. */
  ghost predicate NotifiersMarked(net: Network)
    reads net.parsers`isConstant, net.parsers`notifiedVariables, net.parsers`synchronizer
  {
    forall p | p in Nodes(net) && p.notifiedVariables != [] :: p.synchronizer != null
  }

  /** A parser variable of a source that notifies nothing is connected to nothing else. */
  lemma SourceAlone(net: Network, p: ParserVariable, q: ParserVariable)
    requires Ready(net) && p in Nodes(net) && p.variable.calculation == null && p.notifiedVariables == []
    requires Connected(Edges(net), p, q)
    ensures q == p
  {
    hide Wired, Edges, Connected;
    forall e | e in Edges(net)
      ensures e.0 != p
    {
      if e.0 == p {
        NeighboursVisited(net, p, e.1);
      }
    }
    ClosedContains(Edges(net), {p}, p, q);
  }

  /** A parser variable of a source has a mutex only if it notifies something itself. */
  lemma MarkedNotifies(net: Network, p: ParserVariable)
    requires Ready(net) && SharedExactly(net)
    requires p in Nodes(net) && p.variable.calculation == null && p.synchronizer != null
    ensures p.notifiedVariables != []
  {
    hide Wired, Edges, Connected;
    assert Notifies(net, p);
    var r :| r in Nodes(net) && r.notifiedVariables != [] && Connected(Edges(net), p, r);
    if p.notifiedVariables == [] {
      SourceAlone(net, p, r);
    }
  }

  lemma ConnectedShare(net: Network, roots: map<Synchronizer, ParserVariable>, p: ParserVariable, q: ParserVariable)
    requires Wired(net) && Divided(net, roots) && p in Nodes(net) && Connected(Edges(net), p, q)
    ensures q in Nodes(net) && p.synchronizer == q.synchronizer
  {
    hide Edges, Connected, Wired;
    EdgesTurn(net);
    ClosedContains(Edges(net), (set r | r in Nodes(net) && r.synchronizer == p.synchronizer), p, q);
  }

  lemma ShareConnected(net: Network, roots: map<Synchronizer, ParserVariable>, p: ParserVariable, q: ParserVariable)
    requires Wired(net) && Divided(net, roots) && p in Nodes(net) && q in Nodes(net)
    requires p.synchronizer != null && p.synchronizer == q.synchronizer
    ensures Connected(Edges(net), p, q) && Notifies(net, p)
  {
    hide Edges, Connected, Wired;
    EdgesTurn(net);
    var r := roots[p.synchronizer];
    ConnectedTurns(Edges(net), r, p);
    ConnectedJoins(Edges(net), p, r, q);
  }

  lemma DividedShares(net: Network, roots: map<Synchronizer, ParserVariable>)
    requires Wired(net) && Divided(net, roots) && NotifiersMarked(net)
    ensures SharedExactly(net)
  {
    hide Edges, Connected, Wired, Divided;
    forall p, q | p in Nodes(net) && q in Nodes(net)
      ensures p.synchronizer != null && p.synchronizer == q.synchronizer <==>
        Connected(Edges(net), p, q) && Notifies(net, p)
    {
      if p.synchronizer != null && p.synchronizer == q.synchronizer {
        ShareConnected(net, roots, p, q);
      }
      if Connected(Edges(net), p, q) && Notifies(net, p) {
        var r :| r in Nodes(net) && r.notifiedVariables != [] && Connected(Edges(net), p, r);
        ConnectedShare(net, roots, p, q);
        ConnectedShare(net, roots, p, r);
      }
    }
  }

  lemma {:induction false} RootCount(net: Network, roots: map<Synchronizer, ParserVariable>)
    requires forall s | s in roots :: roots[s].synchronizer == s
    ensures |roots.Values| == |roots|
  {
    if roots != map[] {
      var s :| s in roots;
      var rest := roots - {s};
      RootCount(net, rest);
      assert roots.Values == rest.Values + {roots[s]};
      assert roots.Keys == rest.Keys + {s};
      assert roots[s] !in rest.Values;
    } else {
      assert roots.Values == {};
    }
  }

  lemma RootsApart(net: Network, roots: map<Synchronizer, ParserVariable>)
    requires Wired(net) && Divided(net, roots)
    ensures |roots.Values| == |roots| && roots.Values <= Nodes(net)
    ensures forall a, b | a in roots.Values && b in roots.Values && Connected(Edges(net), a, b) :: a == b
  {
    hide Edges, Connected, Wired;
    RootCount(net, roots);
    forall a, b | a in roots.Values && b in roots.Values && Connected(Edges(net), a, b)
      ensures a == b
    {
      ConnectedShare(net, roots, a, b);
    }
  }

  lemma RootConnected(net: Network, roots: map<Synchronizer, ParserVariable>, p: ParserVariable)
    requires Wired(net) && Divided(net, roots) && p in Nodes(net) && p.synchronizer != null
    ensures p.synchronizer in roots && Connected(Edges(net), roots[p.synchronizer], p)
  {}

  lemma RootNotifies(net: Network, roots: map<Synchronizer, ParserVariable>, r: ParserVariable)
    requires Wired(net) && Divided(net, roots) && r in roots.Values
    ensures r in Nodes(net) && r.notifiedVariables != []
  {
    hide Edges, Connected, Wired;
  }

  /** There are as many synchronizers as components that notify something. */
  lemma DividedCount(net: Network, roots: map<Synchronizer, ParserVariable>)
    requires Wired(net) && Divided(net, roots) && NotifiersMarked(net)
    ensures |NotifyingComponents(net)| == |roots|
  {
    hide Edges, Connected, Wired, Component, Divided;
    EdgesTurn(net);
    RootsApart(net, roots);
    ComponentCount(Nodes(net), Edges(net), roots.Values);
    var all := Components(Nodes(net), Edges(net), roots.Values);
    forall c | c in NotifyingComponents(net)
      ensures c in all
    {
      var p :| p in Nodes(net) && p.notifiedVariables != [] && c == Component(Nodes(net), Edges(net), p);
      RootConnected(net, roots, p);
      SameComponent(Nodes(net), Edges(net), roots[p.synchronizer], p);
    }
    forall c | c in all
      ensures c in NotifyingComponents(net)
    {
      var r :| r in roots.Values && c == Component(Nodes(net), Edges(net), r);
      RootNotifies(net, roots, r);
    }
    assert all == NotifyingComponents(net);
  }

  /** Once variables share mutexes exactly along connections, a propagation stays under one mutex. */
  lemma SharedInStep(net: Network, roots: map<Synchronizer, ParserVariable>)
    requires Ready(net) && Divided(net, roots)
    ensures InStep(net)
  {
    hide Connected;
    forall p, c, q | p in net.parsers && !p.isConstant && c in p.notifiedVariables && q in c.node.listeners
      ensures !q.isConstant && q.synchronizer == p.synchronizer
    {
      NotifiedWired(net, p, c);
      assert UsedBy(p, c) && q.variable == c.node;
      assert Feeds(net, p, q);
      assert p in c.valueVariables + c.statusVariables;
      assert (p, q) in Edges(net);
    }
  }
}
