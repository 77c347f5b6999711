/**
 * Calculated variables: address-space variables notify parser variables, which notify the calculated variables
 * whose formulas use them, which publish to their own address-space variable in turn.
 */
module CalculatedVariables {
  import opened Options
  import opened Sequences

  datatype State = WaitingInitialData | Good | Bad

  datatype StatusCode = OpcGood | OpcBad | OpcBadWaitingForInitialData | OpcOther(code: int)

  /** A value of the address space; `Text` stands for anything that does not convert to a double. */
  datatype Variant = Empty | Boolean(b: bool) | Double(d: real) | Text

  /** The value pointer of a data value may be null. */
  datatype DataValue = DataValue(value: Option<Variant>, status: StatusCode)

  /** What a parser variable holds. */
  datatype Reading = Reading(value: real, state: State)

  function ToDouble(v: Variant): Option<real> {
    match v
    case Boolean(b) => Some(if b then 1.0 else 0.0)
    case Double(d) => Some(d)
    case _ => None
  }

  /** `ChangeListener::operator()`: what a parser variable is set to when its variable gets a data value. */
  function Received(dv: DataValue): Reading {
    if dv.status == OpcBadWaitingForInitialData then Reading(0.0, WaitingInitialData)
    else if dv.value.None? || ToDouble(dv.value.value).None? then Reading(0.0, Bad)
    else Reading(ToDouble(dv.value.value).value, Good)
  }

  /** Only numbers and truth values arrive, whatever other status comes with them. */
  lemma ReceivedMeans(dv: DataValue)
    ensures Received(dv).state == WaitingInitialData <==> dv.status == OpcBadWaitingForInitialData
    ensures Received(dv).state == Good <==>
      dv.status != OpcBadWaitingForInitialData && dv.value.Some? && (dv.value.value.Boolean? || dv.value.value.Double?)
    ensures forall d | Received(dv).state == Good && dv.value == Some(Double(d)) :: Received(dv).value == d
    ensures forall b | Received(dv).state == Good && dv.value == Some(Boolean(b)) ::
      Received(dv).value == if b then 1.0 else 0.0
    ensures Received(dv).state != Good ==> Received(dv).value == 0.0
  {}

  function FirstNotGood(rs: seq<Reading>): Option<State> {
    if rs == [] then None else if rs[0].state != Good then Some(rs[0].state) else FirstNotGood(rs[1..])
  }

  function Values(rs: seq<Reading>): (r: seq<real>)
    ensures |r| == |rs| && forall k | 0 <= k < |rs| :: r[k] == rs[k].value
  {
    if rs == [] then [] else [rs[0].value] + Values(rs[1..])
  }

  type Formula = seq<real> -> real

  /** What `update` publishes for given readings of the value and of the status formula's variables. */
  function Published(values: seq<Reading>, statuses: seq<Reading>,
                     formula: Formula, statusFormula: Option<Formula>, isBoolean: bool): DataValue {
    match FirstNotGood(values)
    case Some(WaitingInitialData) => DataValue(Some(Empty), OpcBadWaitingForInitialData)
    case Some(_) => DataValue(Some(Empty), OpcBad)
    case None =>
      var status := if statusFormula.Some? && statusFormula.value(Values(statuses)) == 0.0 then OpcBad else OpcGood;
      var v := formula(Values(values));
      DataValue(Some(if isBoolean then Boolean(v != 0.0) else Double(v)), status)
  }

  /** The first of these readings that is not good is that of `k`. */
  predicate FirstBad(rs: seq<Reading>, k: nat) {
    k < |rs| && rs[k].state != Good && forall i | 0 <= i < k :: rs[i].state == Good
  }

  /**
   * `dv` is what a variable with these formulas is to publish: with good readings the value of its formula, the status
   * good unless the status formula gives 0; otherwise no value, and the state of the first reading that is not good.
   */
  ghost predicate Publishes(dv: DataValue, values: seq<Reading>, statuses: seq<Reading>,
                            formula: Formula, statusFormula: Option<Formula>, isBoolean: bool) {
    if forall r | r in values :: r.state == Good then
      && (!isBoolean ==> dv.value == Some(Double(formula(Values(values)))))
      && (isBoolean ==> dv.value == Some(Boolean(formula(Values(values)) != 0.0)))
      && dv.status in {OpcGood, OpcBad}
      && (dv.status == OpcGood <==> statusFormula == None || statusFormula.value(Values(statuses)) != 0.0)
    else
      && dv.value == Some(Empty)
      && exists k: nat :: FirstBad(values, k) &&
           dv.status == if values[k].state == WaitingInitialData then OpcBadWaitingForInitialData else OpcBad
  }

  lemma {:induction false} FirstNotGoodFirst(rs: seq<Reading>)
    ensures FirstNotGood(rs).None? <==> forall r | r in rs :: r.state == Good
    ensures FirstNotGood(rs).Some? ==> exists k: nat :: FirstBad(rs, k) && rs[k].state == FirstNotGood(rs).value
  {
    if rs != [] {
      assert forall r | r in rs :: r == rs[0] || r in rs[1..];
      if rs[0].state != Good {
        assert FirstBad(rs, 0);
      } else {
        FirstNotGoodFirst(rs[1..]);
        if FirstNotGood(rs[1..]).Some? {
          var k: nat :| FirstBad(rs[1..], k) && rs[1..][k].state == FirstNotGood(rs[1..]).value;
          assert FirstBad(rs, k + 1);
        }
      }
    }
  }

  lemma PublishedPublishes(values: seq<Reading>, statuses: seq<Reading>,
                           formula: Formula, statusFormula: Option<Formula>, isBoolean: bool)
    ensures Publishes(Published(values, statuses, formula, statusFormula, isBoolean), values, statuses,
                      formula, statusFormula, isBoolean)
  {
    hide FirstNotGood, Values;
    FirstNotGoodFirst(values);
    if FirstNotGood(values).Some? {
      var k: nat :| FirstBad(values, k) && values[k].state == FirstNotGood(values).value;
      assert values[k] in values;
    }
  }

  /** There is only one such data value. */
  lemma PublishesOnce(dv: DataValue, values: seq<Reading>, statuses: seq<Reading>,
                      formula: Formula, statusFormula: Option<Formula>, isBoolean: bool)
    requires Publishes(dv, values, statuses, formula, statusFormula, isBoolean)
    ensures dv == Published(values, statuses, formula, statusFormula, isBoolean)
  {
    hide FirstNotGood, Values;
    FirstNotGoodFirst(values);
    if FirstNotGood(values).Some? {
      var k: nat :| FirstBad(values, k) && values[k].state == FirstNotGood(values).value;
      assert forall i: nat | FirstBad(values, i) :: i == k;
    }
  }

  /** A mutex. */
  class Synchronizer {
    constructor () {}
  }

  /** The objects of one address space, and a bound on how deep formulas build on each other. */
  datatype Network = Network(
    vars: set<Variable>, parsers: set<ParserVariable>, calcs: set<CalculatedVariable>, bound: nat)

  /** `AddressSpace::ChangeNotifyingVariable`; a calculated variable is one with a `calculation`. */
  class Variable {
    const name: seq<char>
    /** Larger than the ranks of all variables that this one is computed from. */
    ghost const rank: nat
    var dataValue: DataValue
    var listeners: seq<ParserVariable>
    var calculation: CalculatedVariable?

    constructor (name: seq<char>, ghost rank: nat)
      ensures this.name == name && this.rank == rank && listeners == [] && calculation == null
      ensures dataValue == DataValue(Some(Empty), OpcBadWaitingForInitialData)
    {
      this.name := name;
      this.rank := rank;
      dataValue := DataValue(Some(Empty), OpcBadWaitingForInitialData);
      listeners := [];
      calculation := null;
    }

    ghost function Own(): set<CalculatedVariable>
      reads this`calculation
    {
      if calculation == null then {} else {calculation}
    }

    /** The stack's own `setValue`, without the listeners. */
    method Store(dv: DataValue, ghost net: Network, ghost stale: set<CalculatedVariable>,
                 ghost late: set<ParserVariable>)
      requires Wired(net) && this in net.vars
      requires AllSettled(net, stale + Own()) && AllDelivered(net, late)
      requires calculation != null && calculation !in stale ==> dv == calculation.Due()
      modifies this`dataValue
      ensures dataValue == dv
      ensures AllSettled(net, stale) && AllDelivered(net, late + Elements(listeners))
    {
      dataValue := dv;
    }

    /**
     * `setValue`: stores the value and calls the listeners. Calculated variables in `stale` and parser variables
     * in `late` may be out of date before and after; everything else is up to date afterwards.
     */
    method SetValue(dv: DataValue, ghost net: Network, ghost stale: set<CalculatedVariable>,
                    ghost late: set<ParserVariable>)
      returns (ghost taken: set<Synchronizer>)
      requires Wired(net) && this in net.vars
      requires AllSettled(net, stale + Own()) && AllDelivered(net, late)
      requires calculation != null && calculation !in stale ==> dv == calculation.Due()
      requires forall p | p in late :: p.variable.rank < rank
      modifies this`dataValue, listeners`value, listeners`state, listeners`fed
      modifies Later(net, rank)`dataValue, LaterParsers(net, rank)`value, LaterParsers(net, rank)`state
      modifies LaterParsers(net, rank)`fed, net.calcs`updated
      ensures dataValue == dv
      ensures AllSettled(net, stale) && AllDelivered(net, late)
      ensures Elements(listeners) <= Fed(net)
      ensures Updated(net) == old(Updated(net)) + Below(net, this) && old(Fed(net)) <= Fed(net)
      ensures Mutexes(listeners) <= taken && (InStep(net) && Varying(listeners) ==> taken == Mutexes(listeners))
      decreases net.bound - rank, 5
    {
      hide Wired, AllSettled, AllDelivered, InStep, Elements, Mutexes, Varying, Updated, Fed, Below;
      Store(dv, net, stale, late);
      taken := Notify(dv, net, stale, late);
    }

    /** `ChangeListener::operator()`: hands the data value on to the parser variable. */
    method CallListener(p: ParserVariable, dv: DataValue,
                        ghost net: Network, ghost stale: set<CalculatedVariable>, ghost late: set<ParserVariable>)
      returns (ghost taken: set<Synchronizer>)
      requires Wired(net) && this in net.vars && p in listeners && dataValue == dv
      requires AllSettled(net, stale) && AllDelivered(net, late + {p})
      requires forall q | q in late :: q.variable.rank <= rank
      modifies p`value, p`state, p`fed
      modifies Later(net, rank)`dataValue, LaterParsers(net, rank)`value, LaterParsers(net, rank)`state
      modifies LaterParsers(net, rank)`fed, net.calcs`updated
      ensures p in Fed(net) && Reading(p.value, p.state) == Received(dv)
      ensures AllSettled(net, stale) && AllDelivered(net, late)
      ensures Updated(net) == old(Updated(net)) + BelowParser(net, p) && old(Fed(net)) <= Fed(net)
      ensures Mutexes([p]) <= taken && (InStep(net) && !p.isConstant ==> taken == Mutexes([p]))
      decreases net.bound - rank, 2
    {
      hide Wired, AllSettled, AllDelivered, InStep, Mutexes, Updated, Fed, BelowParser;
      ListenerWired(net, this, p);
      if dv.status == OpcBadWaitingForInitialData {
        taken := p.SetValue(0.0, WaitingInitialData, net, stale, late);
      } else if dv.value.Some? {
        if dv.value.value == Empty {
          taken := p.SetValue(0.0, Bad, net, stale, late);
        } else {
          var value := ToDouble(dv.value.value);
          if value.Some? {
            taken := p.SetValue(value.value, Good, net, stale, late);
          } else {
            taken := p.SetValue(0.0, Bad, net, stale, late);
          }
        }
      } else {
        taken := p.SetValue(0.0, Bad, net, stale, late);
      }
    }

    /** One turn of the loop over the listeners. */
    method NotifyOne(all: seq<ParserVariable>, i: nat, dv: DataValue,
                     ghost net: Network, ghost stale: set<CalculatedVariable>, ghost late: set<ParserVariable>)
      returns (ghost taken: set<Synchronizer>)
      requires Wired(net) && this in net.vars && dataValue == dv && listeners == all && i < |all|
      requires Halfway(net, stale, late, all, i)
      requires forall p | p in late :: p.variable.rank < rank
      modifies listeners`value, listeners`state, listeners`fed
      modifies Later(net, rank)`dataValue, LaterParsers(net, rank)`value, LaterParsers(net, rank)`state
      modifies LaterParsers(net, rank)`fed, net.calcs`updated
      ensures Halfway(net, stale, late, all, i + 1)
      ensures Updated(net) == old(Updated(net)) + BelowParser(net, all[i]) && old(Fed(net)) <= Fed(net)
      ensures Mutexes([all[i]]) <= taken && (InStep(net) && Varying(all) ==> taken <= Mutexes(all))
      decreases net.bound - rank, 3
    {
      hide Wired, AllSettled, AllDelivered, InStep, Elements, Mutexes, Varying, Updated, Fed, Below;
      ElementsStep(late, all, i);
      RanksBelow(net, this, late, all[i + 1..]);
      ListenerMutex(all, all[i]);
      taken := CallListener(all[i], dv, net, stale, late + Elements(all[i + 1..]));
      ListenerMutex(all, all[i]);
    }

    /** The loop over the listeners. */
    method Notify(dv: DataValue, ghost net: Network, ghost stale: set<CalculatedVariable>,
                  ghost late: set<ParserVariable>)
      returns (ghost taken: set<Synchronizer>)
      requires Wired(net) && this in net.vars && dataValue == dv
      requires AllSettled(net, stale) && AllDelivered(net, late + Elements(listeners))
      requires forall p | p in late :: p.variable.rank < rank
      modifies listeners`value, listeners`state, listeners`fed
      modifies Later(net, rank)`dataValue, LaterParsers(net, rank)`value, LaterParsers(net, rank)`state
      modifies LaterParsers(net, rank)`fed, net.calcs`updated
      ensures AllSettled(net, stale) && AllDelivered(net, late)
      ensures Elements(listeners) <= Fed(net)
      ensures Updated(net) == old(Updated(net)) + Below(net, this) && old(Fed(net)) <= Fed(net)
      ensures Mutexes(listeners) <= taken && (InStep(net) && Varying(listeners) ==> taken == Mutexes(listeners))
      decreases net.bound - rank, 4
    {
      hide Wired, Halfway, InStep, Mutexes, Varying, Updated, Fed, AllSettled, AllDelivered, Elements,
           BelowAll, BelowParser;
      taken := {};
      var i, all := 0, listeners;
      HalfwayStarts(net, stale, late, all);
      NoMutexes(all[..0]);
      BelowNothing(net, this, all[..0]);
      while i < |all|
        invariant i <= |all| && listeners == all && Halfway(net, stale, late, all, i)
        invariant Updated(net) == old(Updated(net)) + BelowAll(net, this, all[..i]) && old(Fed(net)) <= Fed(net)
        invariant Mutexes(all[..i]) <= taken && (InStep(net) && Varying(all) ==> taken <= Mutexes(all))
      {
        ghost var t := NotifyOne(all, i, dv, net, stale, late);
        MutexesStep(all, i);
        BelowAllStep(net, this, i);
        taken := taken + t;
        i := i + 1;
      }
      HalfwayEnds(net, stale, late, all);
      assert all[..i] == all;
    }
  }

  class ParserVariable {
    const variable: Variable
    var value: real
    var state: State
    var notifiedVariables: seq<CalculatedVariable>
    var synchronizer: Synchronizer?
    var isConstant: bool
    /** Whether a value has arrived since registration. */
    ghost var fed: bool

    constructor (variable: Variable)
      ensures this.variable == variable && value == 0.0 && state == WaitingInitialData && !fed
      ensures notifiedVariables == [] && synchronizer == null && !isConstant
    {
      this.variable := variable;
      value, state := 0.0, WaitingInitialData;
      notifiedVariables := [];
      synchronizer := null;
      isConstant := false;
      fed := false;
    }

    /** The two assignments that both forms of `setValue` begin with. */
    method Store(v: real, s: State, ghost net: Network, ghost stale: set<CalculatedVariable>,
                 ghost late: set<ParserVariable>)
      requires Wired(net) && this in net.parsers
      requires Reading(v, s) == Received(variable.dataValue)
      requires AllSettled(net, stale) && AllDelivered(net, late + {this})
      modifies this`value, this`state, this`fed
      ensures value == v && state == s && fed && this in Fed(net) && old(Fed(net)) <= Fed(net)
      ensures AllSettled(net, stale + Elements(notifiedVariables)) && AllDelivered(net, late)
    {
      hide VariablesWired, ParsersWired;
      value, state := v, s;
      fed := true;
    }

    /** `setValue`: takes the mutex if there is one, stores the value and updates the notified variables. */
    method SetValue(v: real, s: State, ghost net: Network, ghost stale: set<CalculatedVariable>,
                    ghost late: set<ParserVariable>)
      returns (ghost taken: set<Synchronizer>)
      requires Wired(net) && this in net.parsers
      requires Reading(v, s) == Received(variable.dataValue)
      requires AllSettled(net, stale) && AllDelivered(net, late + {this})
      requires forall p | p in late :: p.variable.rank <= variable.rank
      modifies this`value, this`state, this`fed
      modifies Later(net, variable.rank)`dataValue, LaterParsers(net, variable.rank)`value
      modifies LaterParsers(net, variable.rank)`state, LaterParsers(net, variable.rank)`fed, net.calcs`updated
      ensures value == v && state == s && fed
      ensures AllSettled(net, stale) && AllDelivered(net, late)
      ensures this in Fed(net) && Elements(notifiedVariables) <= Updated(net)
      ensures Updated(net) == old(Updated(net)) + BelowParser(net, this) && old(Fed(net)) <= Fed(net)
      ensures Mutexes([this]) <= taken && (InStep(net) && !isConstant ==> taken == Mutexes([this]))
      decreases net.bound - variable.rank, 1
    {
      hide Wired, AllSettled, AllDelivered, Received, InStep, Mutexes, Varying, Elements, Updated, Fed, Below,
           BelowEach;
      taken := Mutexes([this]);
      Store(v, s, net, stale, late);
      ghost var t := UpdateNotified(net, stale, late);
      taken := taken + t;
    }

    /** The loop over the calculated variables that use this one. */
    method UpdateNotified(ghost net: Network, ghost stale: set<CalculatedVariable>, ghost late: set<ParserVariable>)
      returns (ghost taken: set<Synchronizer>)
      requires Wired(net) && this in net.parsers
      requires AllSettled(net, stale + Elements(notifiedVariables)) && AllDelivered(net, late)
      requires forall p | p in late :: p.variable.rank <= variable.rank
      modifies Later(net, variable.rank)`dataValue, LaterParsers(net, variable.rank)`value
      modifies LaterParsers(net, variable.rank)`state, LaterParsers(net, variable.rank)`fed, net.calcs`updated
      ensures AllSettled(net, stale) && AllDelivered(net, late)
      ensures Elements(notifiedVariables) <= Updated(net)
      ensures Updated(net) == old(Updated(net)) + BelowParser(net, this) && old(Fed(net)) <= Fed(net)
      ensures InStep(net) && !isConstant ==> taken <= Mutexes([this])
      decreases net.bound - variable.rank, 0
    {
      hide Wired, AllSettled, AllDelivered, InStep, Mutexes, Varying, Elements, Updated, Fed, Below,
           BelowEach, CalculatedVariable.Justifies, Received, Publishes;
      taken := {};
      var i := 0;
      assert notifiedVariables[0..] == notifiedVariables;
      NoElements({}, notifiedVariables[..0]);
      BelowNone(net, this, notifiedVariables[..0]);
      while i < |notifiedVariables|
        invariant i <= |notifiedVariables|
        invariant AllSettled(net, stale + Elements(notifiedVariables[i..])) && AllDelivered(net, late)
        invariant Elements(notifiedVariables[..i]) <= Updated(net)
        invariant Updated(net) == old(Updated(net)) + BelowEach(net, this, notifiedVariables[..i])
        invariant old(Fed(net)) <= Fed(net)
        invariant InStep(net) && !isConstant ==> taken <= Mutexes([this])
      {
        var c := notifiedVariables[i];
        NotifiedWired(net, this, c);
        ElementsStep(stale, notifiedVariables, i);
        ghost var t := c.Update(net, stale + Elements(notifiedVariables[i + 1..]), late);
        InStepAt(net, this, c);
        BelowEachStep(net, this, i);
        taken := taken + t;
        i := i + 1;
      }
      NoElements(stale, notifiedVariables[i..]);
      assert notifiedVariables[..i] == notifiedVariables;
    }
  }

  class CalculatedVariable {
    const node: Variable
    const formula: Formula
    const statusFormula: Option<Formula>
    const isBoolean: bool
    var valueVariables: seq<ParserVariable>
    var statusVariables: seq<ParserVariable>
    var notifiedVariable: ParserVariable?
    /** Whether `update` has run. */
    ghost var updated: bool
    /** The value that is published until then. */
    ghost var initial: DataValue

    constructor (node: Variable, formula: Formula, statusFormula: Option<Formula>, isBoolean: bool)
      ensures this.node == node && this.formula == formula && this.statusFormula == statusFormula
      ensures this.isBoolean == isBoolean && valueVariables == [] && statusVariables == []
      ensures notifiedVariable == null && !updated && initial == node.dataValue
    {
      this.node := node;
      this.formula := formula;
      this.statusFormula := statusFormula;
      this.isBoolean := isBoolean;
      valueVariables, statusVariables := [], [];
      notifiedVariable := null;
      updated := false;
      initial := node.dataValue;
    }

    /** The formula over the current readings of its variables. */
    ghost function Computed(): DataValue
      reads this`valueVariables, this`statusVariables
      reads valueVariables`value, valueVariables`state, statusVariables`value, statusVariables`state
    {
      Published(Readings(valueVariables), Readings(statusVariables), formula, statusFormula, isBoolean)
    }

    /** `dv` is what the variable is to publish for what its parser variables hold now. */
    ghost predicate Justifies(dv: DataValue)
      reads this`valueVariables, this`statusVariables
      reads valueVariables`value, valueVariables`state, statusVariables`value, statusVariables`state
    {
      Publishes(dv, Readings(valueVariables), Readings(statusVariables), formula, statusFormula, isBoolean)
    }

    /** What the variable should publish. */
    ghost function Due(): DataValue
      reads this`updated, this`initial, this`valueVariables, this`statusVariables
      reads valueVariables`value, valueVariables`state, statusVariables`value, statusVariables`state
    {
      if updated then Computed() else initial
    }

    /** `update`: publishes the first bad state among the value's variables, or else what the formulas give. */
    method Update(ghost net: Network, ghost stale: set<CalculatedVariable>, ghost late: set<ParserVariable>)
      returns (ghost taken: set<Synchronizer>)
      requires Wired(net) && this in net.calcs
      requires AllSettled(net, stale + {this}) && AllDelivered(net, late)
      requires forall p | p in late :: p.variable.rank < node.rank
      modifies node`dataValue, node.listeners`value, node.listeners`state, node.listeners`fed
      modifies Later(net, node.rank)`dataValue, LaterParsers(net, node.rank)`value, LaterParsers(net, node.rank)`state
      modifies LaterParsers(net, node.rank)`fed, net.calcs`updated
      ensures Elements(node.listeners) <= Fed(net)
      ensures Updated(net) == old(Updated(net)) + {this} + Below(net, node) && old(Fed(net)) <= Fed(net)
      ensures AllSettled(net, stale) && AllDelivered(net, late)
      ensures InStep(net) && Varying(node.listeners) ==> taken == Mutexes(node.listeners)
      ensures Justifies(node.dataValue)
      decreases net.bound - node.rank, 6
    {
      hide Wired, AllSettled, AllDelivered, InStep, Computed, Justifies, Mutexes, Varying, Updated, Fed, Below;
      var dv := Evaluate();
      NodeWired(net, this);
      InputsEarlier(net, this);
      MarkUpdated(net, stale, late);
      taken := node.SetValue(dv, net, stale, late);
      assert forall p | p in valueVariables || p in statusVariables ::
        p.value == old(p.value) && p.state == old(p.state);
      assert Justifies(dv) == old(Justifies(dv));
    }

    ghost method MarkUpdated(net: Network, stale: set<CalculatedVariable>, late: set<ParserVariable>)
      requires Wired(net) && this in net.calcs
      requires AllSettled(net, stale + {this}) && AllDelivered(net, late)
      modifies this`updated
      ensures Updated(net) == old(Updated(net)) + {this} && Due() == old(Computed())
      ensures AllSettled(net, stale + {this}) && AllDelivered(net, late)
    {
      updated := true;
    }

    /** Until its first update the variable is to publish `dv`. */
    ghost method MarkInitial(dv: DataValue, net: Network)
      requires Wired(net) && this in net.calcs && !updated && AllSettled(net, {this}) && AllDelivered(net, {})
      modifies this`initial
      ensures initial == dv == Due() && AllSettled(net, {this}) && AllDelivered(net, {})
    {
      initial := dv;
    }

    method Evaluate() returns (dv: DataValue)
      ensures dv == Computed() && Justifies(dv)
    {
      hide Justifies;
      var bad := FindBad();
      if bad.Some? {
        var status := if bad.value == WaitingInitialData then OpcBadWaitingForInitialData else OpcBad;
        dv := DataValue(Some(Empty), status);
      } else {
        dv := Calculate();
      }
      ComputedJustified(this);
    }

    /** The loop over the value's variables: the state of the first that is not good. */
    method FindBad() returns (bad: Option<State>)
      ensures bad == FirstNotGood(Readings(valueVariables))
    {
      var i := 0;
      ghost var rs := Readings(valueVariables);
      assert rs[0..] == rs;
      ReadingCount(valueVariables);
      while i < |valueVariables|
        invariant i <= |valueVariables| && FirstNotGood(rs) == FirstNotGood(rs[i..])
      {
        ReadingAt(valueVariables, i);
        assert rs[i..][1..] == rs[i + 1..] && rs[i] == Reading(valueVariables[i].value, valueVariables[i].state);
        if valueVariables[i].state != Good {
          return Some(valueVariables[i].state);
        }
        i := i + 1;
      }
      bad := None;
    }

    /** Both formulas over good inputs. */
    method Calculate() returns (dv: DataValue)
      requires FirstNotGood(Readings(valueVariables)).None?
      ensures dv == Computed()
    {
      var status := OpcGood;
      if statusFormula.Some? {
        status := if statusFormula.value(InputValues(statusVariables)) != 0.0 then OpcGood else OpcBad;
      }
      var v := formula(InputValues(valueVariables));
      dv := DataValue(Some(if isBoolean then Boolean(v != 0.0) else Double(v)), status);
    }
  }

  /**
   * Told from the parser variables themselves: the formula gets what they hold, in order, if they are all good; if not,
   * the first of them that is not good decides.
   */
  lemma JustifiesMeans(c: CalculatedVariable, dv: DataValue, xs: seq<real>, ys: seq<real>)
    requires |xs| == |c.valueVariables| && forall k | 0 <= k < |xs| :: xs[k] == c.valueVariables[k].value
    requires |ys| == |c.statusVariables| && forall k | 0 <= k < |ys| :: ys[k] == c.statusVariables[k].value
    ensures c.Justifies(dv) && (forall p | p in c.valueVariables :: p.state == Good) ==>
      && dv.value == Some(if c.isBoolean then Boolean(c.formula(xs) != 0.0) else Double(c.formula(xs)))
      && dv.status == if c.statusFormula.Some? && c.statusFormula.value(ys) == 0.0 then OpcBad else OpcGood
    ensures c.Justifies(dv) ==> forall k | 0 <= k < |c.valueVariables| && c.valueVariables[k].state != Good ::
      (forall i | 0 <= i < k :: c.valueVariables[i].state == Good) ==>
        && dv.value == Some(Empty)
        && (c.valueVariables[k].state == WaitingInitialData ==> dv.status == OpcBadWaitingForInitialData)
        && (c.valueVariables[k].state == Bad ==> dv.status == OpcBad)
  {
    hide Values;
    var rs, ss := Readings(c.valueVariables), Readings(c.statusVariables);
    AllReadings(c.valueVariables);
    AllReadings(c.statusVariables);
    if c.Justifies(dv) {
      if forall p | p in c.valueVariables :: p.state == Good {
        assert Values(rs) == xs && Values(ss) == ys;
        assert forall r | r in rs :: r.state == Good;
      }
      forall k | 0 <= k < |rs| && rs[k].state != Good && forall i | 0 <= i < k :: c.valueVariables[i].state == Good
        ensures dv.value == Some(Empty)
        ensures dv.status == if rs[k].state == WaitingInitialData then OpcBadWaitingForInitialData else OpcBad
      {
        assert rs[k] in rs;
        var m: nat :| FirstBad(rs, m) && dv.status ==
          if rs[m].state == WaitingInitialData then OpcBadWaitingForInitialData else OpcBad;
        assert FirstBad(rs, k) && m == k;
      }
    }
  }

  lemma AllReadings(ps: seq<ParserVariable>)
    ensures |Readings(ps)| == |ps|
    ensures forall k | 0 <= k < |ps| :: Readings(ps)[k] == Reading(ps[k].value, ps[k].state)
  {
    ReadingCount(ps);
    forall k | 0 <= k < |ps| ensures Readings(ps)[k] == Reading(ps[k].value, ps[k].state) {
      ReadingAt(ps, k);
    }
  }

  lemma ComputedJustified(c: CalculatedVariable)
    ensures c.Justifies(c.Computed())
  {
    hide Published;
    var rs, ss := Readings(c.valueVariables), Readings(c.statusVariables);
    PublishedPublishes(rs, ss, c.formula, c.statusFormula, c.isBoolean);
  }

  ghost function Readings(ps: seq<ParserVariable>): seq<Reading>
    reads ps`value, ps`state
  {
    if ps == [] then [] else [Reading(ps[0].value, ps[0].state)] + Readings(ps[1..])
  }

  lemma {:induction false} ReadingCount(ps: seq<ParserVariable>)
    ensures |Readings(ps)| == |ps|
  {
    if ps != [] {
      ReadingCount(ps[1..]);
    }
  }

  lemma {:induction false} ReadingAt(ps: seq<ParserVariable>, i: nat)
    requires i < |ps|
    ensures i < |Readings(ps)| && Readings(ps)[i] == Reading(ps[i].value, ps[i].state)
  {
    if i > 0 {
      ReadingAt(ps[1..], i - 1);
    }
  }

  /** The numbers that a formula reads through its variable pointers. */
  function InputValues(ps: seq<ParserVariable>): (r: seq<real>)
    reads ps`value, ps`state
    ensures r == Values(Readings(ps))
  {
    if ps == [] then [] else [ps[0].value] + InputValues(ps[1..])
  }

  // ----- how the objects are connected

  ghost predicate UsedBy(p: ParserVariable, c: CalculatedVariable)
    reads c`valueVariables, c`statusVariables
  {
    p in c.valueVariables || p in c.statusVariables
  }

  ghost predicate VariablesWired(net: Network)
    reads net.vars`listeners, net.vars`calculation
  {
    forall v | v in net.vars ::
      && v.rank < net.bound
      && (forall p | p in v.listeners :: p in net.parsers && p.variable == v)
      && (v.calculation != null ==> v.calculation in net.calcs && v.calculation.node == v)
  }

  ghost predicate ParsersWired(net: Network)
    reads net.vars`listeners, net.parsers`notifiedVariables, net.calcs`valueVariables, net.calcs`statusVariables
  {
    forall p | p in net.parsers ::
      && p.variable in net.vars && p in p.variable.listeners
      && (forall c | c in p.notifiedVariables :: c in net.calcs && UsedBy(p, c))
  }

  ghost predicate CalculationsWired(net: Network)
    reads net.vars`calculation, net.parsers`notifiedVariables
    reads net.calcs`valueVariables, net.calcs`statusVariables, net.calcs`notifiedVariable
  {
    forall c | c in net.calcs ::
      && c.node in net.vars && c.node.calculation == c
      && (forall p | p in c.valueVariables + c.statusVariables ::
            p in net.parsers && c in p.notifiedVariables && p.variable.rank < c.node.rank)
      && (c.notifiedVariable != null ==> c.notifiedVariable in net.parsers && c.notifiedVariable.variable == c.node)
  }

  /** Connections run both ways and only to what has a higher rank. */
  ghost predicate Wired(net: Network)
    reads net.vars`listeners, net.vars`calculation, net.parsers`notifiedVariables
    reads net.calcs`valueVariables, net.calcs`statusVariables, net.calcs`notifiedVariable
  {
    VariablesWired(net) && ParsersWired(net) && CalculationsWired(net)
  }

  lemma ListenerWired(net: Network, v: Variable, p: ParserVariable)
    requires Wired(net) && v in net.vars && p in v.listeners
    ensures p in net.parsers && p.variable == v && v.rank < net.bound
  {}

  lemma NotifiedWired(net: Network, p: ParserVariable, c: CalculatedVariable)
    requires Wired(net) && p in net.parsers && c in p.notifiedVariables
    ensures c in net.calcs && c.node in net.vars && p.variable.rank < c.node.rank < net.bound && c.node.calculation == c
    ensures forall q | q in c.node.listeners :: q in net.parsers && q.variable == c.node
  {}

  lemma NodeWired(net: Network, c: CalculatedVariable)
    requires Wired(net) && c in net.calcs
    ensures c.node in net.vars && c.node.calculation == c && c.node.Own() == {c} && c.node.rank < net.bound
    ensures forall q | q in c.node.listeners :: q in net.parsers && q.variable == c.node
  {}

  /** A formula's inputs are not among what its own variable sets off. */
  lemma InputsEarlier(net: Network, c: CalculatedVariable)
    requires Wired(net) && c in net.calcs
    ensures forall p | p in c.valueVariables || p in c.statusVariables ::
      p !in LaterParsers(net, c.node.rank) && p !in c.node.listeners
  {
    assert forall p | p in c.valueVariables || p in c.statusVariables :: p in c.valueVariables + c.statusVariables;
  }

  ghost function Mutexes(ps: seq<ParserVariable>): set<Synchronizer>
    reads ps`synchronizer
  {
    set p | p in ps && p.synchronizer != null :: p.synchronizer
  }

  ghost predicate Varying(ps: seq<ParserVariable>)
    reads ps`isConstant
  {
    forall p | p in ps :: !p.isConstant
  }

  /** What a parser variable that can change sets off stays under its own mutex. */
  ghost predicate InStep(net: Network)
    requires Wired(net)
    reads net.vars`listeners, net.vars`calculation, net.parsers`notifiedVariables
    reads net.calcs`valueVariables, net.calcs`statusVariables, net.calcs`notifiedVariable
    reads net.parsers`isConstant, net.parsers`synchronizer
  {
    forall p, c, q | p in net.parsers && !p.isConstant && c in p.notifiedVariables && q in c.node.listeners ::
      !q.isConstant && q.synchronizer == p.synchronizer
  }

  lemma InStepAt(net: Network, p: ParserVariable, c: CalculatedVariable)
    requires Wired(net) && p in net.parsers && c in p.notifiedVariables
    ensures InStep(net) && !p.isConstant ==> Varying(c.node.listeners) && Mutexes(c.node.listeners) <= Mutexes([p])
  {
    NotifiedWired(net, p, c);
    if InStep(net) && !p.isConstant {
      assert p in [p];
      assert forall q | q in c.node.listeners :: !q.isConstant && q.synchronizer == p.synchronizer;
    }
  }

  lemma ElementsStep<T>(a: set<T>, s: seq<T>, i: nat)
    requires i < |s|
    ensures a + Elements(s[i..]) == a + Elements(s[i + 1..]) + {s[i]}
    ensures Elements(s[..i + 1]) == Elements(s[..i]) + {s[i]}
  {
    assert s[i..] == [s[i]] + s[i + 1..];
    assert s[..i + 1] == s[..i] + [s[i]];
  }

  lemma NoElements<T>(a: set<T>, s: seq<T>)
    requires s == []
    ensures a + Elements(s) == a && Elements(s) == {}
  {}

  lemma ListenerMutex(ps: seq<ParserVariable>, p: ParserVariable)
    requires p in ps
    ensures Mutexes([p]) <= Mutexes(ps) && (Varying(ps) ==> !p.isConstant)
  {}

  lemma MutexesStep(ps: seq<ParserVariable>, i: nat)
    requires i < |ps|
    ensures Mutexes(ps[..i + 1]) == Mutexes(ps[..i]) + Mutexes([ps[i]])
  {
    assert ps[..i + 1] == ps[..i] + [ps[i]];
  }

  lemma NoMutexes(ps: seq<ParserVariable>)
    requires ps == []
    ensures Mutexes(ps) == {}
  {}

  lemma RanksBelow(net: Network, v: Variable, late: set<ParserVariable>, rest: seq<ParserVariable>)
    requires Wired(net) && v in net.vars && (forall p | p in late :: p.variable.rank < v.rank)
    requires forall p | p in rest :: p in v.listeners
    ensures forall p | p in late + Elements(rest) :: p.variable.rank <= v.rank
  {}

  // ----- what is up to date

  /** The variable publishes its formula over its inputs' current readings, and its initial value before that. */
  ghost predicate Settled(c: CalculatedVariable)
    reads c`updated, c`initial, c.node`dataValue, c`valueVariables, c`statusVariables
    reads c.valueVariables`value, c.valueVariables`state, c.statusVariables`value, c.statusVariables`state
  {
    c.node.dataValue == c.Due()
  }

  /** What a parser variable holds before a value arrives. */
  const UNTOLD := Reading(0.0, WaitingInitialData)

  /** The parser variable holds what its variable's data value means, once one has arrived. */
  ghost predicate Delivered(p: ParserVariable)
    reads p`fed, p`value, p`state, p.variable`dataValue
  {
    Reading(p.value, p.state) == if p.fed then Received(p.variable.dataValue) else UNTOLD
  }

  ghost predicate AllSettled(net: Network, stale: set<CalculatedVariable>)
    requires Wired(net)
    reads net.vars`listeners, net.vars`calculation, net.parsers`notifiedVariables
    reads net.calcs`valueVariables, net.calcs`statusVariables, net.calcs`notifiedVariable
    reads net.calcs`updated, net.calcs`initial, net.vars`dataValue, net.parsers`value, net.parsers`state
  {
    forall c | c in net.calcs && c !in stale :: Settled(c)
  }

  ghost predicate AllDelivered(net: Network, late: set<ParserVariable>)
    requires Wired(net)
    reads net.vars`listeners, net.vars`calculation, net.parsers`notifiedVariables
    reads net.calcs`valueVariables, net.calcs`statusVariables, net.calcs`notifiedVariable
    reads net.parsers`fed, net.parsers`value, net.parsers`state, net.vars`dataValue
  {
    forall p | p in net.parsers && p !in late :: Delivered(p)
  }

  /** The state of the loop over `all` listeners at `i`. */
  ghost predicate Halfway(net: Network, stale: set<CalculatedVariable>, late: set<ParserVariable>,
                          all: seq<ParserVariable>, i: nat)
    requires Wired(net) && i <= |all|
    reads net.vars`listeners, net.vars`calculation, net.parsers`notifiedVariables
    reads net.calcs`valueVariables, net.calcs`statusVariables, net.calcs`notifiedVariable
    reads net.calcs`updated, net.calcs`initial, net.vars`dataValue
    reads net.parsers`fed, net.parsers`value, net.parsers`state
  {
    && AllSettled(net, stale) && AllDelivered(net, late + Elements(all[i..]))
    && Elements(all[..i]) <= Fed(net)
  }

  lemma HalfwayStarts(net: Network, stale: set<CalculatedVariable>, late: set<ParserVariable>, all: seq<ParserVariable>)
    requires Wired(net) && AllSettled(net, stale) && AllDelivered(net, late + Elements(all))
    ensures Halfway(net, stale, late, all, 0)
  {
    assert all[0..] == all;
  }

  lemma HalfwayEnds(net: Network, stale: set<CalculatedVariable>, late: set<ParserVariable>, all: seq<ParserVariable>)
    requires Wired(net) && Halfway(net, stale, late, all, |all|)
    ensures AllSettled(net, stale) && AllDelivered(net, late) && Elements(all) <= Fed(net)
  {
    assert all[..|all|] == all;
    assert late + Elements(all[|all|..]) == late;
  }

  /** The calculated variables that have been updated. */
  ghost function Updated(net: Network): set<CalculatedVariable>
    reads net.calcs`updated
  {
    set c | c in net.calcs && c.updated
  }

  /** The parser variables that a value has reached. */
  ghost function Fed(net: Network): set<ParserVariable>
    reads net.parsers`fed
  {
    set p | p in net.parsers && p.fed
  }

  /** What a change of a variable of rank `r` can reach. */
  ghost function Later(net: Network, r: nat): set<Variable> {
    set v | v in net.vars && v.rank > r
  }

  ghost function LaterParsers(net: Network, r: nat): set<ParserVariable> {
    set p | p in net.parsers && p.variable.rank > r
  }

  // ----- what a change reaches

  /** The calculated variables that a change of `v` updates. */
  ghost function Below(net: Network, v: Variable): set<CalculatedVariable>
    requires Wired(net) && v in net.vars
    reads net.vars`listeners, net.vars`calculation, net.parsers`notifiedVariables
    reads net.calcs`valueVariables, net.calcs`statusVariables, net.calcs`notifiedVariable
    decreases net.bound - v.rank, 3, 0
  {
    BelowAll(net, v, v.listeners)
  }

  ghost function BelowAll(net: Network, v: Variable, ps: seq<ParserVariable>): set<CalculatedVariable>
    requires Wired(net) && v in net.vars && forall p | p in ps :: p in v.listeners
    reads net.vars`listeners, net.vars`calculation, net.parsers`notifiedVariables
    reads net.calcs`valueVariables, net.calcs`statusVariables, net.calcs`notifiedVariable
    decreases net.bound - v.rank, 2, |ps|
  {
    if ps == [] then {}
    else
      var p := ps[|ps| - 1];
      ListenerWired(net, v, p);
      BelowAll(net, v, ps[..|ps| - 1]) + BelowParser(net, p)
  }

  ghost function BelowParser(net: Network, p: ParserVariable): set<CalculatedVariable>
    requires Wired(net) && p in net.parsers
    reads net.vars`listeners, net.vars`calculation, net.parsers`notifiedVariables
    reads net.calcs`valueVariables, net.calcs`statusVariables, net.calcs`notifiedVariable
    decreases net.bound - p.variable.rank, 1, 0
  {
    BelowEach(net, p, p.notifiedVariables)
  }

  ghost function BelowEach(net: Network, p: ParserVariable, cs: seq<CalculatedVariable>): set<CalculatedVariable>
    requires Wired(net) && p in net.parsers && forall c | c in cs :: c in p.notifiedVariables
    reads net.vars`listeners, net.vars`calculation, net.parsers`notifiedVariables
    reads net.calcs`valueVariables, net.calcs`statusVariables, net.calcs`notifiedVariable
    decreases net.bound - p.variable.rank, 0, |cs|
  {
    if cs == [] then {}
    else
      var c := cs[|cs| - 1];
      NotifiedWired(net, p, c);
      BelowEach(net, p, cs[..|cs| - 1]) + {c} + Below(net, c.node)
  }

  lemma BelowNothing(net: Network, v: Variable, ps: seq<ParserVariable>)
    requires Wired(net) && v in net.vars && ps == []
    ensures BelowAll(net, v, ps) == {}
  {}

  lemma BelowNone(net: Network, p: ParserVariable, cs: seq<CalculatedVariable>)
    requires Wired(net) && p in net.parsers && cs == []
    ensures BelowEach(net, p, cs) == {}
  {}

  lemma BelowAllStep(net: Network, v: Variable, i: nat)
    requires Wired(net) && v in net.vars && i < |v.listeners|
    ensures v.listeners[i] in net.parsers
    ensures BelowAll(net, v, v.listeners[..i + 1]) ==
      BelowAll(net, v, v.listeners[..i]) + BelowParser(net, v.listeners[i])
  {
    hide Wired;
    ListenerWired(net, v, v.listeners[i]);
    assert v.listeners[..i + 1][..i] == v.listeners[..i];
  }

  lemma BelowEachStep(net: Network, p: ParserVariable, i: nat)
    requires Wired(net) && p in net.parsers && i < |p.notifiedVariables|
    ensures p.notifiedVariables[i].node in net.vars
    ensures BelowEach(net, p, p.notifiedVariables[..i + 1]) ==
      BelowEach(net, p, p.notifiedVariables[..i]) + {p.notifiedVariables[i]} + Below(net, p.notifiedVariables[i].node)
  {
    hide Wired;
    NotifiedWired(net, p, p.notifiedVariables[i]);
    assert p.notifiedVariables[..i + 1][..i] == p.notifiedVariables[..i];
  }

  /** `c` reads `v` itself. */
  ghost predicate ReadsItself(c: CalculatedVariable, v: Variable)
    reads c`valueVariables, c`statusVariables
  {
    exists p | p in c.valueVariables + c.statusVariables :: p.variable == v
  }

  lemma {:induction false} BelowEachHas(net: Network, p: ParserVariable, cs: seq<CalculatedVariable>,
                                        c: CalculatedVariable)
    requires Wired(net) && p in net.parsers && forall d | d in cs :: d in p.notifiedVariables
    ensures forall d | d in cs :: d.node in net.vars
    ensures c in BelowEach(net, p, cs) <==> exists d | d in cs :: d == c || c in Below(net, d.node)
    decreases |cs|
  {
    hide Wired, Below;
    forall d | d in cs
      ensures d.node in net.vars
    {
      NotifiedWired(net, p, d);
    }
    if cs != [] {
      BelowEachHas(net, p, cs[..|cs| - 1], c);
      assert cs == cs[..|cs| - 1] + [cs[|cs| - 1]];
    }
  }

  lemma {:induction false} BelowAllHas(net: Network, v: Variable, ps: seq<ParserVariable>, c: CalculatedVariable)
    requires Wired(net) && v in net.vars && forall p | p in ps :: p in v.listeners
    ensures forall p | p in ps :: p in net.parsers
    ensures c in BelowAll(net, v, ps) <==> exists p | p in ps :: c in BelowParser(net, p)
    decreases |ps|
  {
    hide Wired, BelowParser;
    forall p | p in ps
      ensures p in net.parsers
    {
      ListenerWired(net, v, p);
    }
    if ps != [] {
      var front, last := ps[..|ps| - 1], ps[|ps| - 1];
      BelowAllHas(net, v, front, c);
      assert ps == front + [last];
      assert BelowAll(net, v, ps) == BelowAll(net, v, front) + BelowParser(net, last);
      assert c in BelowParser(net, last) ==> last in ps;
    }
  }

  /** A change of `v` updates what reads it, and what reads that in turn. */
  lemma BelowHas(net: Network, v: Variable, c: CalculatedVariable)
    requires Wired(net) && v in net.vars
    ensures forall d | d in net.calcs :: d.node in net.vars
    ensures c in Below(net, v) <==>
      exists d | d in net.calcs && ReadsItself(d, v) :: d == c || c in Below(net, d.node)
  {
    hide BelowEach, BelowAll;
    BelowAllHas(net, v, v.listeners, c);
    forall p | p in v.listeners
      ensures p in net.parsers
      ensures c in BelowParser(net, p) <==> exists d | d in p.notifiedVariables :: d == c || c in Below(net, d.node)
    {
      BelowEachHas(net, p, p.notifiedVariables, c);
    }
    forall d | d in net.calcs
      ensures ReadsItself(d, v) <==> exists p | p in v.listeners :: d in p.notifiedVariables
    {
      ReadersNotified(net, v, d);
    }
    if c in Below(net, v) {
      var p :| p in v.listeners && c in BelowParser(net, p);
      var d :| d in p.notifiedVariables && (d == c || c in Below(net, d.node));
      NotifiedWired(net, p, d);
    }
    if d :| d in net.calcs && ReadsItself(d, v) && (d == c || c in Below(net, d.node)) {
      var p :| p in v.listeners && d in p.notifiedVariables;
      assert c in BelowParser(net, p);
    }
  }

  lemma ReadersNotified(net: Network, v: Variable, d: CalculatedVariable)
    requires Wired(net) && v in net.vars && d in net.calcs
    ensures ReadsItself(d, v) <==> exists p | p in v.listeners :: d in p.notifiedVariables
  {
    if p :| p in v.listeners && d in p.notifiedVariables {
      assert p in net.parsers && p.variable == v && UsedBy(p, d);
      assert p in d.valueVariables + d.statusVariables;
    }
    if ReadsItself(d, v) {
      var p :| p in d.valueVariables + d.statusVariables && p.variable == v;
      assert p in net.parsers && p in p.variable.listeners && d in p.notifiedVariables;
    }
  }
}
