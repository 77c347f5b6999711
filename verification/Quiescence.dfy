/**
 * What the address space shows between two source updates: every calculated variable that has been updated publishes
 * what its formulas give on the readings of the sources, however its inputs share ancestors. Sources are the variables
 * that no formula has computed yet.
 */
module Quiescence {
  import opened CalculatedEngine
  import opened CalculatedVariables
  import opened Domains
  import opened Options

  /** What `c` should publish, worked out from the sources alone. */
  ghost function Denoted(net: Network, c: CalculatedVariable): DataValue
    requires Wired(net) && c in net.calcs
    reads net.vars`listeners, net.vars`calculation, net.parsers`notifiedVariables
    reads net.calcs`valueVariables, net.calcs`statusVariables, net.calcs`notifiedVariable
    reads net.parsers`value, net.parsers`state, net.calcs`updated
    decreases c.node.rank, 1, 0
  {
    InputsWired(net, c);
    Published(DenotedReadings(net, c.node.rank, c.valueVariables), DenotedReadings(net, c.node.rank, c.statusVariables),
              c.formula, c.statusFormula, c.isBoolean)
  }

  ghost predicate Before(net: Network, rank: nat, ps: seq<ParserVariable>) {
    forall p | p in ps :: p in net.parsers && p.variable.rank < rank
  }

  ghost function DenotedReadings(net: Network, rank: nat, ps: seq<ParserVariable>): seq<Reading>
    requires Wired(net) && Before(net, rank, ps)
    reads net.vars`listeners, net.vars`calculation, net.parsers`notifiedVariables
    reads net.calcs`valueVariables, net.calcs`statusVariables, net.calcs`notifiedVariable
    reads net.parsers`value, net.parsers`state, net.calcs`updated
    decreases rank, 0, |ps|
  {
    if ps == [] then []
    else
      ParserWired(net, ps[0]);
      var c := ps[0].variable.calculation;
      [if c == null || !c.updated then Reading(ps[0].value, ps[0].state) else Received(Denoted(net, c))]
      + DenotedReadings(net, rank, ps[1..])
  }

  lemma InputsWired(net: Network, c: CalculatedVariable)
    requires Wired(net) && c in net.calcs
    ensures Before(net, c.node.rank, c.valueVariables) && Before(net, c.node.rank, c.statusVariables)
  {
    assert forall p | p in c.valueVariables || p in c.statusVariables :: p in c.valueVariables + c.statusVariables;
  }

  lemma ParserWired(net: Network, p: ParserVariable)
    requires Wired(net) && p in net.parsers
    ensures p.variable in net.vars
    ensures p.variable.calculation != null ==>
      p.variable.calculation in net.calcs && p.variable.calculation.node == p.variable
  {}

  /** Every calculated variable that has been updated publishes its formulas over the current sources. */
  ghost predicate UpToDate(net: Network)
    requires Wired(net)
    reads net.vars`listeners, net.vars`calculation, net.parsers`notifiedVariables
    reads net.calcs`valueVariables, net.calcs`statusVariables, net.calcs`notifiedVariable
    reads net.calcs`updated, net.vars`dataValue, net.parsers`value, net.parsers`state
  {
    forall c | c in net.calcs && c.updated :: c.node.dataValue == Denoted(net, c)
  }

  lemma {:induction false} PublishesDenoted(net: Network, c: CalculatedVariable)
    requires Wired(net) && AllSettled(net, {}) && AllDelivered(net, {}) && OutputsFed(net)
    requires c in net.calcs && c.updated
    ensures c.node.dataValue == Denoted(net, c)
    decreases c.node.rank, 1, 0
  {
    hide Wired, Published, AllDelivered, OutputsFed;
    InputsWired(net, c);
    ReadingsDenoted(net, c.node.rank, c.valueVariables);
    ReadingsDenoted(net, c.node.rank, c.statusVariables);
    assert Settled(c);
  }

  lemma {:induction false} ReadingsDenoted(net: Network, rank: nat, ps: seq<ParserVariable>)
    requires Wired(net) && AllSettled(net, {}) && AllDelivered(net, {}) && OutputsFed(net) && Before(net, rank, ps)
    ensures Readings(ps) == DenotedReadings(net, rank, ps)
    decreases rank, 0, |ps|
  {
    hide Wired, Received, AllSettled;
    if ps != [] {
      var c := ps[0].variable.calculation;
      ParserWired(net, ps[0]);
      if c != null && c.updated {
        PublishesDenoted(net, c);
        assert ps[0] in Outputs(net) && Delivered(ps[0]);
      }
      ReadingsDenoted(net, rank, ps[1..]);
    }
  }

  /** Between any two operations of an engine. */
  lemma EngineUpToDate(engine: Engine)
    requires engine.Valid()
    ensures UpToDate(engine.net)
  {
    hide Wired;
    forall c | c in engine.net.calcs && c.updated
      ensures c.node.dataValue == Denoted(engine.net, c)
    {
      PublishesDenoted(engine.net, c);
    }
  }

  /** A formula's inputs arrive by value and state; the outcome of its status formula does not go further. */
  lemma StatePassedOn(values: seq<Reading>, statuses: seq<Reading>, formula: Formula, statusFormula: Option<Formula>,
                      isBoolean: bool)
    ensures Received(Published(values, statuses, formula, statusFormula, isBoolean)) ==
      match FirstNotGood(values)
      case Some(state) => Reading(0.0, state)
      case None =>
        var v := formula(Values(values));
        Reading(if isBoolean then if v != 0.0 then 1.0 else 0.0 else v, Good)
  {
    FirstIsNotGood(values);
  }

  lemma {:induction false} FirstIsNotGood(rs: seq<Reading>)
    ensures FirstNotGood(rs) != Some(Good)
    ensures FirstNotGood(rs).None? <==> forall r | r in rs :: r.state == Good
  {
    if rs != [] {
      FirstIsNotGood(rs[1..]);
      assert forall r | r in rs :: r == rs[0] || r in rs[1..];
    }
  }

  /** A chain of parser variables, each an input of the formula whose output the next one is. */
  ghost predicate Chain(net: Network, ps: seq<ParserVariable>)
    requires Wired(net)
    reads net.vars`listeners, net.vars`calculation, net.parsers`notifiedVariables
    reads net.calcs`valueVariables, net.calcs`statusVariables, net.calcs`notifiedVariable
  {
    && (forall p | p in ps :: p in net.parsers)
    && forall i | 0 <= i < |ps| :: i > 0 ==> Feeds(net, ps[i - 1], ps[i])
  }

  lemma {:induction false} RanksGrow(net: Network, ps: seq<ParserVariable>)
    requires Wired(net) && Chain(net, ps) && |ps| > 1
    ensures ps[0].variable.rank < ps[|ps| - 1].variable.rank
    decreases |ps|
  {
    hide Wired;
    var front := ps[..|ps| - 1];
    var p, q := ps[|ps| - 2], ps[|ps| - 1];
    assert Feeds(net, p, q);
    ParserWired(net, q);
    InputsWired(net, q.variable.calculation);
    if |ps| > 2 {
      assert forall i | 0 <= i < |front| :: front[i] == ps[i];
      RanksGrow(net, front);
    }
  }

  /** No variable depends on itself, over any number of formulas. */
  lemma NoCycles(net: Network, ps: seq<ParserVariable>)
    requires Wired(net) && Chain(net, ps) && |ps| > 1
    ensures ps[0] != ps[|ps| - 1]
  {
    RanksGrow(net, ps);
  }
}
