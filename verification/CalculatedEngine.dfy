/**
 * The engine of the calculated variables: registration, instantiation of formulas, removal of unused parser
 * variables and the set-up of the mutexes.
 */
module CalculatedEngine {
  import opened CalculatedVariables
  import opened Domains
  import opened Options
  import opened Sequences

  type Name = seq<char>

  /** The first parser variable of that name. */
  function FirstNamed(ps: seq<ParserVariable>, name: Name): Option<ParserVariable> {
    if ps == [] then None else if ps[0].variable.name == name then Some(ps[0]) else FirstNamed(ps[1..], name)
  }

  predicate AllNamed(ps: seq<ParserVariable>, names: seq<Name>) {
    forall n | n in names :: FirstNamed(ps, n).Some?
  }

  /** Of several parser variables of one name only the first, which requests find, notifies anything. */
  ghost predicate NotifiersFirst(ps: seq<ParserVariable>)
    reads ps`notifiedVariables
  {
    forall p | p in ps && p.notifiedVariables != [] :: FirstNamed(ps, p.variable.name) == Some(p)
  }

  /** The inputs that a formula asking for these names gets, each once. */
  function Inputs(ps: seq<ParserVariable>, names: seq<Name>): seq<ParserVariable>
    requires AllNamed(ps, names)
  {
    if names == [] then []
    else
      var before := Inputs(ps, names[..|names| - 1]);
      var p := FirstNamed(ps, names[|names| - 1]).value;
      Appended(before, p)
  }

  /** `addDependentVariableForValue` and `ForStatus` keep each variable once. */
  function Appended(ps: seq<ParserVariable>, p: ParserVariable): (r: seq<ParserVariable>)
    ensures p in r && ps <= r && forall q | q in r :: q == p || q in ps
  {
    if p in ps then ps else ps + [p]
  }

  /** All variables other than that of `c` come earlier, and nothing listens to it yet. */
  ghost predicate Newest(net: Network, c: CalculatedVariable)
    reads c.node`listeners, c`notifiedVariable, c`updated
  {
    && c in net.calcs && c.node.listeners == [] && c.notifiedVariable == null && !c.updated
    && forall v | v in net.vars && v != c.node :: v.rank < c.node.rank
  }

  /** Variables that no formula computes have the lowest rank. */
  ghost predicate SourcesFirst(net: Network)
    reads net.vars`calculation
  {
    forall v | v in net.vars && v.calculation == null :: v.rank == 0
  }

  /** The parser variables of calculated variables. */
  ghost function Outputs(net: Network): set<ParserVariable>
    reads (set p | p in net.parsers :: p.variable)`calculation
  {
    set p | p in net.parsers && p.variable.calculation != null
  }

  /** A value has arrived at the parser variable of every calculated variable. */
  ghost predicate OutputsFed(net: Network)
    reads (set p | p in net.parsers :: p.variable)`calculation, net.parsers`fed
  {
    Outputs(net) <= Fed(net)
  }

  lemma ParsersKnown(net: Network)
    requires Wired(net)
    ensures forall p | p in net.parsers :: p.variable in net.vars
  {}

  /** What `optimize` removes: nothing uses it and its variable has no other listener. */
  ghost predicate Unused(p: ParserVariable)
    reads p`notifiedVariables, p.variable`listeners
  {
    p.notifiedVariables == [] && |p.variable.listeners| <= 1
  }

  ghost function Kept(ps: seq<ParserVariable>): seq<ParserVariable>
    reads ps`notifiedVariables, (set p | p in ps :: p.variable)`listeners
  {
    if ps == [] then []
    else
      var last := ps[|ps| - 1];
      Kept(ps[..|ps| - 1]) + if Unused(last) then [] else [last]
  }

  ghost function WithParser(net: Network, v: Variable, p: ParserVariable): Network {
    net.(vars := net.vars + {v}, parsers := net.parsers + {p})
  }

  /** Adds a listener for a new parser variable. */
  method Connect(variable: Variable, pv: ParserVariable, ghost net: Network)
    requires Wired(net) && 0 < net.bound && pv !in net.parsers && pv.variable == variable && pv.notifiedVariables == []
    requires variable in net.vars || (variable.listeners == [] && variable.calculation == null && variable.rank == 0)
    modifies variable`listeners
    ensures variable.listeners == old(variable.listeners) + [pv] && Wired(WithParser(net, variable, pv))
  {
    variable.listeners := variable.listeners + [pv];
    assert forall p | p in old(variable.listeners) :: p in variable.listeners;
    assert variable.listeners[|variable.listeners| - 1] == pv;
  }

  method Listen(variable: Variable, pv: ParserVariable, ghost net: Network)
    requires Wired(net) && 0 < net.bound && pv !in net.parsers && pv.variable == variable && pv.notifiedVariables == []
    requires variable in net.vars || (variable.listeners == [] && variable.calculation == null && variable.rank == 0)
    requires AllSettled(net, {}) && AllDelivered(net, {}) && Delivered(pv) && !pv.fed && !pv.isConstant
    modifies variable`listeners
    ensures variable.listeners == old(variable.listeners) + [pv] && Wired(WithParser(net, variable, pv))
    ensures AllSettled(WithParser(net, variable, pv), {}) && AllDelivered(WithParser(net, variable, pv), {})
    ensures old(Ready(net)) ==> ReadyBut(WithParser(net, variable, pv), {pv})
    ensures variable.calculation == null && old(Ready(net)) ==> Ready(WithParser(net, variable, pv))
  {
    hide Wired;
    Connect(variable, pv, net);
  }

  /** Marks the output of `c` and lets `c` know it. */
  method Link(c: CalculatedVariable, pv: ParserVariable, ghost net: Network)
    requires ReadyBut(net, {pv}) && AllSettled(net, {}) && AllDelivered(net, {})
    requires c in net.calcs && pv in net.parsers && c.node.listeners == [pv]
    modifies pv`isConstant, c`notifiedVariable
    ensures Ready(net) && AllSettled(net, {}) && AllDelivered(net, {}) && c.notifiedVariable == pv
  {
    hide Wired, Settled, Delivered, Backlinked, ConstantsMarked;
    LinkReady(c, pv, net);
  }

  method LinkReady(c: CalculatedVariable, pv: ParserVariable, ghost net: Network)
    requires ReadyBut(net, {pv}) && c in net.calcs && pv in net.parsers && c.node.listeners == [pv]
    modifies pv`isConstant, c`notifiedVariable
    ensures Ready(net) && c.notifiedVariable == pv
  {
    pv.isConstant := |c.valueVariables| + |c.statusVariables| == 0;
    c.notifiedVariable := pv;
  }

  ghost function Without(net: Network, p: ParserVariable): Network {
    net.(parsers := net.parsers - {p})
  }

  /** The listeners of an unused parser variable are that variable alone. */
  lemma OnlyListener(net: Network, p: ParserVariable)
    requires Wired(net) && p in net.parsers && Unused(p)
    ensures p.variable in net.vars && p.variable.listeners == [p]
    ensures p.variable.calculation != null ==> p.variable.calculation in net.calcs
    ensures forall q | q in net.parsers && q != p ::
      q.variable != p.variable && (q.variable.calculation == null || q.variable.calculation != p.variable.calculation)
  {}

  /** Removes a parser variable that nothing uses. */
  method Drop(p: ParserVariable, ghost net: Network)
    requires Wired(net) && p in net.parsers && Unused(p)
    modifies p.variable`listeners, net.calcs`notifiedVariable
    ensures p.variable.listeners == [] && Wired(Without(net, p))
    ensures forall c | c in net.calcs && c != p.variable.calculation :: c.notifiedVariable == old(c.notifiedVariable)
  {
    OnlyListener(net, p);
    p.variable.listeners := [];
    var c := p.variable.calculation;
    if c != null {
      c.notifiedVariable := null;
    }
  }

  method DropSettled(p: ParserVariable, ghost net: Network)
    requires Ready(net) && p in net.parsers && Unused(p) && AllSettled(net, {}) && AllDelivered(net, {})
    modifies p.variable`listeners, net.calcs`notifiedVariable
    ensures p.variable.listeners == [] && Ready(Without(net, p))
    ensures AllSettled(Without(net, p), {}) && AllDelivered(Without(net, p), {})
    ensures forall c | c in net.calcs && c != p.variable.calculation :: c.notifiedVariable == old(c.notifiedVariable)
  {
    hide Wired;
    OnlyListener(net, p);
    Drop(p, net);
  }

  ghost function WithCalculation(net: Network, c: CalculatedVariable): Network {
    net.(vars := net.vars + {c.node}, calcs := net.calcs + {c}, bound := net.bound + 1)
  }

  /** A calculated variable without inputs and listeners, later than everything else. */
  method Attach(c: CalculatedVariable, ghost net: Network)
    requires Wired(net) && c !in net.calcs && c.node !in net.vars && c.node.listeners == [] && c.node.rank == net.bound
    requires c.valueVariables == [] && c.statusVariables == [] && c.notifiedVariable == null && !c.updated
    modifies c.node`calculation
    ensures Wired(WithCalculation(net, c)) && c.node.calculation == c && Newest(WithCalculation(net, c), c)
  {
    c.node.calculation := c;
  }

  method Create(name: Name, formula: Formula, statusFormula: Option<Formula>, isBoolean: bool, ghost net: Network)
    returns (c: CalculatedVariable)
    requires Ready(net) && AllSettled(net, {}) && AllDelivered(net, {})
    ensures fresh(c) && fresh(c.node) && c.node.name == name && c.formula == formula && c.statusFormula == statusFormula
    ensures c.isBoolean == isBoolean && c.valueVariables == [] && c.statusVariables == []
    ensures Ready(WithCalculation(net, c)) && Newest(WithCalculation(net, c), c)
    ensures AllSettled(WithCalculation(net, c), {}) && AllDelivered(WithCalculation(net, c), {})
  {
    hide Wired, Newest, AllSettled, AllDelivered, Ready;
    var node := new Variable(name, net.bound);
    c := new CalculatedVariable(node, formula, statusFormula, isBoolean);
    AttachReady(c, net);
  }

  method AttachReady(c: CalculatedVariable, ghost net: Network)
    requires Ready(net) && c !in net.calcs && c.node !in net.vars && c.node.listeners == [] && c.node.rank == net.bound
    requires c.valueVariables == [] && c.statusVariables == [] && c.notifiedVariable == null && !c.updated
    requires AllSettled(net, {}) && AllDelivered(net, {}) && Settled(c)
    modifies c.node`calculation
    ensures Ready(WithCalculation(net, c)) && Newest(WithCalculation(net, c), c)
    ensures AllSettled(WithCalculation(net, c), {}) && AllDelivered(WithCalculation(net, c), {})
  {
    hide Wired;
    Attach(c, net);
    ParsersElsewhere(net, c);
  }

  lemma ParsersElsewhere(net: Network, c: CalculatedVariable)
    requires Wired(WithCalculation(net, c)) && c.node.listeners == []
    ensures forall p | p in net.parsers :: p.variable != c.node && p.variable in net.vars + {c.node}
  {}

  /** Joins an input of the value's formula and a calculated variable that comes later. */
  method AddValueInput(c: CalculatedVariable, p: ParserVariable, ghost net: Network)
    requires Wired(net) && c in net.calcs && p in net.parsers && p.variable.rank < c.node.rank
    modifies c`valueVariables, p`notifiedVariables
    ensures Wired(net) && c.valueVariables == Appended(old(c.valueVariables), p)
    ensures p.notifiedVariables == old(p.notifiedVariables) + [c]
  {
    hide VariablesWired, Appended;
    c.valueVariables := Appended(c.valueVariables, p);
    p.notifiedVariables := p.notifiedVariables + [c];
    assert p.notifiedVariables[|p.notifiedVariables| - 1] == c;
    assert forall d | d in old(p.notifiedVariables) :: d in p.notifiedVariables;
  }

  method AddStatusInput(c: CalculatedVariable, p: ParserVariable, ghost net: Network)
    requires Wired(net) && c in net.calcs && p in net.parsers && p.variable.rank < c.node.rank
    modifies c`statusVariables, p`notifiedVariables
    ensures Wired(net) && c.statusVariables == Appended(old(c.statusVariables), p)
    ensures p.notifiedVariables == old(p.notifiedVariables) + [c]
  {
    hide VariablesWired, Appended;
    c.statusVariables := Appended(c.statusVariables, p);
    p.notifiedVariables := p.notifiedVariables + [c];
    assert p.notifiedVariables[|p.notifiedVariables| - 1] == c;
    assert forall d | d in old(p.notifiedVariables) :: d in p.notifiedVariables;
  }

  method AddInput(c: CalculatedVariable, p: ParserVariable, forStatus: bool, ghost net: Network)
    requires Ready(net) && AllSettled(net, {}) && AllDelivered(net, {}) && Newest(net, c) && p in net.parsers
    modifies c`valueVariables, c`statusVariables, p`notifiedVariables
    ensures Ready(net) && AllSettled(net, {}) && AllDelivered(net, {}) && Newest(net, c)
    ensures c.valueVariables == if forStatus then old(c.valueVariables) else Appended(old(c.valueVariables), p)
    ensures c.statusVariables == if forStatus then Appended(old(c.statusVariables), p) else old(c.statusVariables)
    ensures p.notifiedVariables == old(p.notifiedVariables) + [c]
  {
    hide Wired, Newest, Appended;
    NewestUnheard(net, c);
    if forStatus {
      AddStatusInput(c, p, net);
    } else {
      AddValueInput(c, p, net);
    }
  }

  /** The first value of a calculated variable: the configured one, or that of its formula. */
  method Begin(c: CalculatedVariable, initialValue: Option<Variant>, ghost net: Network)
    requires Wired(net) && AllSettled(net, {}) && AllDelivered(net, {}) && c in net.calcs && !c.updated
    modifies c`initial, c.node`dataValue, c.node.listeners`value, c.node.listeners`state, c.node.listeners`fed
    modifies Later(net, c.node.rank)`dataValue, LaterParsers(net, c.node.rank)`value
    modifies LaterParsers(net, c.node.rank)`state, LaterParsers(net, c.node.rank)`fed, net.calcs`updated
    ensures AllSettled(net, {}) && AllDelivered(net, {}) && Elements(c.node.listeners) <= Fed(net)
    ensures initialValue.Some? ==> c.node.dataValue == DataValue(initialValue, OpcGood) == c.initial
    ensures Updated(net) == old(Updated(net)) + (if initialValue.None? then {c} else {}) + Below(net, c.node)
    ensures old(Fed(net)) <= Fed(net)
  {
    hide Wired, AllSettled, AllDelivered, Elements, InStep, Varying, Below, Updated, Fed;
    NodeWired(net, c);
    SettledExcept(net, {c});
    assert {} + {c} == {c};
    if initialValue.Some? {
      c.MarkInitial(DataValue(initialValue, OpcGood), net);
      var _ := c.node.SetValue(DataValue(initialValue, OpcGood), net, {}, {});
    } else {
      var _ := c.Update(net, {}, {});
    }
  }

  class Engine {
    var parserVariables: seq<ParserVariable>
    var numSynchronizers: nat
    var numCalculatedVariables: nat
    ghost var net: Network

    constructor ()
      ensures Valid() && parserVariables == [] && numSynchronizers == 0 && numCalculatedVariables == 0
      ensures net == Network({}, {}, {}, 1)
    {
      parserVariables := [];
      numSynchronizers, numCalculatedVariables := 0, 0;
      net := Network({}, {}, {}, 1);
    }

    /** Everything is connected both ways and nothing is out of date. */
    ghost predicate Current()
      reads this, net.vars, net.parsers, net.calcs
    {
      && Wired(net) && AllSettled(net, {}) && AllDelivered(net, {}) && 0 < net.bound
      && net.parsers == Elements(parserVariables) && NoRepeats(parserVariables) && SourcesFirst(net)
    }

    /** Also, outputs and constants are marked. */
    ghost predicate Consistent()
      reads this, net.vars, net.parsers, net.calcs
    {
      Current() && Ready(net)
    }

    /** What holds between any two operations. */
    ghost predicate Valid()
      reads this, net.vars, net.parsers, net.calcs
    {
      Consistent() && OutputsFed(net) && NotifiersFirst(parserVariables)
    }

    /** `registerVariableForCalculatedVariables`. */
    method RegisterVariable(variable: Variable) returns (pv: ParserVariable)
      requires Current()
      requires variable in net.vars || (variable.listeners == [] && variable.calculation == null && variable.rank == 0)
      modifies this`parserVariables, this`net, variable`listeners
      ensures Current() && fresh(pv) && pv.variable == variable && parserVariables == old(parserVariables) + [pv]
      ensures variable.listeners == old(variable.listeners) + [pv]
      ensures net == WithParser(old(net), variable, pv)
      ensures pv.notifiedVariables == [] && pv.synchronizer == null && !pv.isConstant && !pv.fed
      ensures old(Ready(net)) ==> ReadyBut(net, {pv})
      ensures variable.calculation == null && old(Ready(net)) ==> Ready(net)
      ensures old(NotifiersFirst(parserVariables)) ==> NotifiersFirst(parserVariables)
      ensures variable.calculation == null && old(Valid()) ==> Valid()
    {
      hide Wired, AllSettled, AllDelivered, Ready, FirstNamed, NotifiersFirst;
      ghost var was := parserVariables;
      pv := new ParserVariable(variable);
      parserVariables := parserVariables + [pv];
      Listen(variable, pv, net);
      net := WithParser(net, variable, pv);
      assert net.parsers == Elements(parserVariables);
      assert variable.calculation == null ==> Outputs(net) <= old(Outputs(net));
      NotifiersAppend(was, pv);
    }

    /** `parserVariableRequestHandler` up to the name's first match. */
    method Find(name: Name) returns (p: ParserVariable?)
      ensures p == null <==> FirstNamed(parserVariables, name).None?
      ensures p != null ==> FirstNamed(parserVariables, name) == Some(p)
    {
      var i := 0;
      while i < |parserVariables|
        invariant i <= |parserVariables| && FirstNamed(parserVariables, name) == FirstNamed(parserVariables[i..], name)
      {
        if parserVariables[i].variable.name == name {
          return parserVariables[i];
        }
        assert parserVariables[i..][1..] == parserVariables[i + 1..];
        i := i + 1;
      }
      p := null;
    }

    /** `parserVariableRequestHandler`: a formula of `c` asks for a name. */
    method Request(c: CalculatedVariable, name: Name, forStatus: bool) returns (ok: bool)
      requires Valid() && Newest(net, c)
      modifies c`valueVariables, c`statusVariables, net.parsers`notifiedVariables
      ensures Valid() && Newest(net, c)
      ensures ok <==> FirstNamed(parserVariables, name).Some?
      ensures ok ==> var p := FirstNamed(parserVariables, name).value;
        && c.valueVariables == (if forStatus then old(c.valueVariables) else Appended(old(c.valueVariables), p))
        && c.statusVariables == (if forStatus then Appended(old(c.statusVariables), p) else old(c.statusVariables))
    {
      hide Wired, FirstNamed, Newest, AllSettled, AllDelivered, Backlinked, ConstantsMarked, Appended;
      var p := Find(name);
      if p == null {
        return false;
      }
      FirstNamedIn(parserVariables, name);
      AddInput(c, p, forStatus, net);
      assert NotifiersFirst(parserVariables);
      ok := true;
    }

    /** What compiling one of the formulas of `c` does: it asks for every name. */
    method RequestAll(c: CalculatedVariable, names: seq<Name>, forStatus: bool) returns (ok: bool)
      requires Valid() && Newest(net, c) && (if forStatus then c.statusVariables else c.valueVariables) == []
      modifies c`valueVariables, c`statusVariables, net.parsers`notifiedVariables
      ensures Valid() && Newest(net, c)
      ensures ok <==> AllNamed(parserVariables, names)
      ensures ok ==> c.valueVariables == if forStatus then old(c.valueVariables) else Inputs(parserVariables, names)
      ensures ok ==> c.statusVariables == if forStatus then Inputs(parserVariables, names) else old(c.statusVariables)
    {
      hide Valid, FirstNamed, Newest, Appended;
      var i := 0;
      while i < |names|
        invariant i <= |names| && Valid() && Newest(net, c) && AllNamed(parserVariables, names[..i])
        invariant c.valueVariables ==
                  if forStatus then old(c.valueVariables) else Inputs(parserVariables, names[..i])
        invariant c.statusVariables ==
                  if forStatus then Inputs(parserVariables, names[..i]) else old(c.statusVariables)
      {
        assert names[..i + 1][..i] == names[..i] && names[i] in names;
        var found := Request(c, names[i], forStatus);
        if !found {
          return false;
        }
        i := i + 1;
      }
      assert names[..i] == names;
      ok := true;
    }

    /** The inputs that the value formula and then the status formula ask for. */
    method RequestInputs(c: CalculatedVariable, names: seq<Name>, statusNames: seq<Name>, forStatus: bool)
      returns (ok: bool)
      requires Valid() && Newest(net, c) && c.valueVariables == [] && c.statusVariables == []
      modifies c`valueVariables, c`statusVariables, net.parsers`notifiedVariables
      ensures Valid() && Newest(net, c)
      ensures ok <==> AllNamed(parserVariables, names) && (forStatus ==> AllNamed(parserVariables, statusNames))
      ensures ok ==> c.valueVariables == Inputs(parserVariables, names)
      ensures ok ==> c.statusVariables == if forStatus then Inputs(parserVariables, statusNames) else []
    {
      hide Valid, Newest, Inputs, AllNamed;
      ok := RequestAll(c, names, false);
      if ok && forStatus {
        ok := RequestAll(c, statusNames, true);
      }
    }

    /**
     * `instantiateCalculatedVariable`. Fails when a formula asks for an unknown name; the original throws then, and
     * what it leaves behind is not part of the contract.
     */
    method Instantiate(name: Name, names: seq<Name>, formula: Formula, statusNames: seq<Name>,
                       statusFormula: Option<Formula>, isBoolean: bool, initialValue: Option<Variant>)
      returns (c: CalculatedVariable, ok: bool)
      requires Valid()
      modifies this, net.parsers`notifiedVariables, net.vars`dataValue
      modifies net.parsers`value, net.parsers`state, net.parsers`fed, net.calcs`updated
      ensures fresh(c) && fresh(c.node) && c.node.name == name
      ensures ok <==> AllNamed(old(parserVariables), names) &&
                      (statusFormula.Some? ==> AllNamed(old(parserVariables), statusNames))
      ensures ok ==> Valid() && c in net.calcs && c.notifiedVariable != null
      ensures ok ==> fresh(c.notifiedVariable) && parserVariables == old(parserVariables) + [c.notifiedVariable]
      ensures ok ==> c.valueVariables == Inputs(old(parserVariables), names)
      ensures ok ==> c.statusVariables == if statusFormula.Some? then Inputs(old(parserVariables), statusNames) else []
      ensures ok && initialValue.Some? ==> c.node.dataValue == DataValue(initialValue, OpcGood) == c.initial
      ensures ok ==> forall v | v in old(net.vars) && v.calculation == null :: v.dataValue == old(v.dataValue)
      ensures ok ==> c.node.listeners == [c.notifiedVariable] && c.notifiedVariable.variable == c.node
      ensures ok ==> c.node.calculation == c
      ensures c.formula == formula && c.statusFormula == statusFormula && c.isBoolean == isBoolean
      ensures ok ==> net == WithParser(WithCalculation(old(net), c), c.node, c.notifiedVariable)
      ensures ok ==> Updated(net) == old(Updated(net)) + if initialValue.None? then {c} else {}
      ensures ok ==> old(Fed(net)) <= Fed(net)
      ensures ok ==> c.notifiedVariable.fed && c.notifiedVariable.synchronizer == null
      ensures ok ==> numCalculatedVariables == old(numCalculatedVariables) + 1
      ensures ok ==> numSynchronizers == old(numSynchronizers)
    {
      hide Valid, Wired, Newest, Inputs, AllNamed;
      c := Prepare(name, formula, statusFormula, isBoolean);
      ok := RequestInputs(c, names, statusNames, statusFormula.Some?);
      if !ok {
        return;
      }
      Finish(c, initialValue);
    }

    /** The last steps, once the formulas are compiled. */
    method Finish(c: CalculatedVariable, initialValue: Option<Variant>)
      requires Valid() && Newest(net, c)
      modifies this`parserVariables, this`net, this`numCalculatedVariables
      modifies c.node`listeners, c`notifiedVariable, c`initial
      modifies net.vars`dataValue, net.parsers`value, net.parsers`state, net.parsers`fed, net.calcs`updated
      ensures Valid() && c in net.calcs && c.notifiedVariable != null && fresh(c.notifiedVariable)
      ensures parserVariables == old(parserVariables) + [c.notifiedVariable]
      ensures net == WithParser(old(net), c.node, c.notifiedVariable)
      ensures Updated(net) == old(Updated(net)) + if initialValue.None? then {c} else {}
      ensures old(Fed(net)) <= Fed(net)
      ensures c.notifiedVariable.fed && c.notifiedVariable.synchronizer == null
      ensures initialValue.Some? ==> c.node.dataValue == DataValue(initialValue, OpcGood) == c.initial
      ensures forall v | v in old(net.vars) && v.calculation == null :: v.dataValue == old(v.dataValue)
      ensures c.node.listeners == [c.notifiedVariable] && c.notifiedVariable.variable == c.node
      ensures c.node.calculation == c
      ensures numCalculatedVariables == old(numCalculatedVariables) + 1
    {
      hide Wired, AllSettled, AllDelivered, Backlinked, ConstantsMarked, NoRepeats, SourcesFirst, Newest,
           NotifiersFirst, Below;
      ParsersKnown(net);
      NewestUnheard(net, c);
      NodeWired(net, c);
      Publicise(c);
      ghost var pv := c.notifiedVariable;
      assert Outputs(net) <= old(Outputs(net)) + {pv};
      assert pv in Elements(c.node.listeners) by { InElements(c.node.listeners, pv); }
      NothingBelow(net, c.node, pv);
      Publish(c, initialValue);
      assert Outputs(net) <= old(Outputs(net)) + {pv};
    }

    method Prepare(name: Name, formula: Formula, statusFormula: Option<Formula>, isBoolean: bool)
      returns (c: CalculatedVariable)
      requires Valid()
      modifies this`net
      ensures Valid() && Newest(net, c) && net == WithCalculation(old(net), c)
      ensures fresh(c) && fresh(c.node) && c.node.name == name && c.formula == formula
      ensures c.statusFormula == statusFormula && c.isBoolean == isBoolean
      ensures c.valueVariables == [] && c.statusVariables == [] && Updated(net) == old(Updated(net))
    {
      hide Wired, Newest, AllSettled, AllDelivered, Backlinked, ConstantsMarked, NotifiersFirst;
      c := Create(name, formula, statusFormula, isBoolean, net);
      net := WithCalculation(net, c);
      NodeWired(net, c);
      NewestUnheard(net, c);
    }

    /** Lets later formulas use the newest calculated variable. */
    method Publicise(c: CalculatedVariable)
      requires Consistent() && Newest(net, c)
      modifies this`parserVariables, this`net, c.node`listeners, c`notifiedVariable
      ensures Consistent() && c in net.calcs && !c.updated && c.notifiedVariable != null && fresh(c.notifiedVariable)
      ensures parserVariables == old(parserVariables) + [c.notifiedVariable]
      ensures net == WithParser(old(net), c.node, c.notifiedVariable)
      ensures c.node.listeners == [c.notifiedVariable] && c.notifiedVariable.variable == c.node
      ensures c.notifiedVariable.synchronizer == null && c.notifiedVariable.notifiedVariables == []
      ensures old(NotifiersFirst(parserVariables)) ==> NotifiersFirst(parserVariables)
    {
      hide Wired, AllSettled, AllDelivered, Backlinked, ConstantsMarked, NoRepeats, NotifiersFirst;
      NodeWired(net, c);
      var pv := RegisterVariable(c.node);
      Link(c, pv, net);
    }

    /** The value that a new calculated variable starts with: the configured one, or that of its formula. */
    method Publish(c: CalculatedVariable, initialValue: Option<Variant>)
      requires Consistent() && c in net.calcs && !c.updated
      modifies this`numCalculatedVariables, c`initial
      modifies net.vars`dataValue, net.parsers`value, net.parsers`state, net.parsers`fed, net.calcs`updated
      ensures Consistent() && numCalculatedVariables == old(numCalculatedVariables) + 1
      ensures initialValue.Some? ==> c.node.dataValue == DataValue(initialValue, OpcGood) == c.initial
      ensures forall v | v in net.vars && v.calculation == null :: v.dataValue == old(v.dataValue)
      ensures Elements(c.node.listeners) <= Fed(net)
      ensures Updated(net) == old(Updated(net)) + (if initialValue.None? then {c} else {}) + Below(net, c.node)
      ensures old(Fed(net)) <= Fed(net)
    {
      hide Wired, AllSettled, AllDelivered, Backlinked, ConstantsMarked, NoRepeats, Elements, Below;
      NodeWired(net, c);
      Begin(c, initialValue, net);
      numCalculatedVariables := numCalculatedVariables + 1;
    }

    /** A new value of a variable that no formula computes. */
    method UpdateSource(v: Variable, dv: DataValue) returns (ghost taken: set<Synchronizer>)
      requires Valid() && v in net.vars && v.calculation == null
      modifies net.vars`dataValue, net.parsers`value, net.parsers`state, net.parsers`fed, net.calcs`updated
      ensures Valid() && v.dataValue == dv
      ensures forall w | w in net.vars && w != v && w.calculation == null :: w.dataValue == old(w.dataValue)
      ensures Elements(v.listeners) <= Fed(net)
      ensures Updated(net) == old(Updated(net)) + Below(net, v) && old(Fed(net)) <= Fed(net)
      ensures InStep(net) ==> taken == Mutexes(v.listeners)
      ensures InStep(net) && SharedExactly(net) ==> |taken| <= 1
    {
      hide Wired, AllSettled, AllDelivered, Backlinked, NoRepeats, Elements, InStep, Mutexes, SharedExactly,
           NotifiersFirst, Below, Updated;
      SettledExcept(net, v.Own());
      assert {} + v.Own() == {};
      SourceVaries(net, v);
      ListenersWired(net, v);
      taken := v.SetValue(dv, net, {}, {});
      if SharedExactly(net) {
        OneMutex(this, v);
      }
    }

    /** Erases the unused parser variable at position `i`. */
    method Erase(i: nat)
      requires Valid() && i < |parserVariables| && Unused(parserVariables[i])
      modifies this`parserVariables, this`net, net.vars`listeners, net.calcs`notifiedVariable
      ensures Valid() && parserVariables == old(parserVariables[..i] + parserVariables[i + 1..])
      ensures net == old(net).(parsers := Elements(parserVariables))
      ensures forall p | p in old(parserVariables) && p != old(parserVariables[i]) ::
        p.variable.listeners == old(p.variable.listeners)
    {
      hide Wired, AllSettled, AllDelivered, Backlinked, ConstantsMarked, NotifiersFirst, NoRepeats, Elements,
           OutputsFed;
      var p := parserVariables[i];
      ElementsRemove(parserVariables, i);
      OnlyListener(net, p);
      NotifiersRemove(parserVariables, i);
      OutputsFedWithout(net, p);
      DropSettled(p, net);
      parserVariables := parserVariables[..i] + parserVariables[i + 1..];
      net := Without(net, p);
    }

    /** `optimize`. */
    method Optimize()
      requires Valid()
      modifies this`parserVariables, this`net, net.vars`listeners, net.calcs`notifiedVariable
      ensures Valid() && parserVariables == old(Kept(parserVariables))
      ensures net == old(net).(parsers := Elements(parserVariables))
    {
      hide Wired, AllSettled, AllDelivered, Ready, SourcesFirst, Kept, NoRepeats, NotifiersFirst;
      KeptSteps(parserVariables);
      var i := 0;
      ghost var all, done := parserVariables, 0;
      while i < |parserVariables|
        invariant i <= |parserVariables| && done <= |all| && Valid()
        invariant parserVariables[i..] == all[done..] && parserVariables[..i] == old(Kept(all[..done]))
        invariant net == old(net).(parsers := Elements(parserVariables))
        invariant forall n | done <= n < |old(parserVariables)| ::
          old(parserVariables)[n].variable.listeners == old(parserVariables[n].variable.listeners)
        decreases |all| - done
      {
        var p := parserVariables[i];
        RestOf(parserVariables, all, i, done);
        if p.notifiedVariables == [] && |p.variable.listeners| <= 1 {
          Erase(i);
        } else {
          i := i + 1;
        }
        done := done + 1;
      }
    }

    /** One turn of the loop of `setupSynchronization`. */
    method DivideFrom(i: nat, ghost roots: map<Synchronizer, ParserVariable>)
      returns (ghost roots1: map<Synchronizer, ParserVariable>)
      requires Valid() && Divided(net, roots) && |roots| == numSynchronizers && i < |parserVariables|
      requires forall j | i < j < |parserVariables| :: Served(parserVariables[j])
      modifies this`numSynchronizers, net.parsers`synchronizer
      ensures Valid() && Divided(net, roots1) && |roots1| == numSynchronizers
      ensures forall j | i <= j < |parserVariables| :: Served(parserVariables[j])
    {
      hide Wired, AllSettled, AllDelivered, Backlinked, ConstantsMarked, Divided, NoRepeats, SourcesFirst, Outputs,
           NotifiersFirst;
      var p := parserVariables[i];
      roots1 := roots;
      if |p.notifiedVariables| >= 1 && p.synchronizer == null && !p.isConstant {
        var s := NewDomain(p, net, roots);
        roots1 := roots[s := p];
        numSynchronizers := numSynchronizers + 1;
      }
    }

    /** The loop of `setupSynchronization`, over the parser variables from last to first. */
    method DivideAll() returns (ghost roots: map<Synchronizer, ParserVariable>)
      requires Valid() && numSynchronizers == 0 && forall p | p in net.parsers :: p.synchronizer == null
      modifies this`numSynchronizers, net.parsers`synchronizer
      ensures Valid() && Divided(net, roots) && |roots| == numSynchronizers
      ensures forall p | p in parserVariables :: Served(p)
    {
      hide Valid, Divided, Served, Wired;
      roots := map[];
      NothingDivided(this);
      var i: nat := |parserVariables|;
      while i > 0
        invariant i <= |parserVariables| && Valid() && Divided(net, roots) && |roots| == numSynchronizers
        invariant forall j | i <= j < |parserVariables| :: Served(parserVariables[j])
      {
        i := i - 1;
        roots := DivideFrom(i, roots);
      }
    }

    /** `setupSynchronization`, as it is called once at start-up. */
    method SetupSynchronization()
      requires Valid() && numSynchronizers == 0 && forall p | p in net.parsers :: p.synchronizer == null
      modifies this`numSynchronizers, net.parsers`synchronizer
      ensures Valid() && SharedExactly(net) && InStep(net)
      ensures numSynchronizers == |NotifyingComponents(net)|
      ensures forall p | p in net.parsers && p.isConstant :: p.synchronizer == null
    {
      hide Wired, AllSettled, AllDelivered, Backlinked, ConstantsMarked, Divided, NoRepeats, SharedExactly,
           InStep, NotifyingComponents, SourcesFirst, Outputs, Served, NotifiersFirst;
      ghost var roots := DivideAll();
      AllServed(net, parserVariables);
      DividedShares(net, roots);
      DividedCount(net, roots);
      SharedInStep(net, roots);
      ConstantsUnmarked(net, roots);
    }

    /** What the server does once all variables exist: `optimize`, then `setupSynchronization`. */
    method StartUp()
      requires Valid() && numSynchronizers == 0 && forall p | p in net.parsers :: p.synchronizer == null
      modifies this`parserVariables, this`net, this`numSynchronizers
      modifies net.vars`listeners, net.calcs`notifiedVariable, net.parsers`synchronizer
      ensures Valid() && parserVariables == old(Kept(parserVariables)) && SharedExactly(net) && InStep(net)
      ensures numSynchronizers == |NotifyingComponents(net)|
      ensures net == old(net).(parsers := Elements(parserVariables)) && net.parsers <= old(net.parsers)
    {
      hide Valid, Kept, SharedExactly, InStep, NotifyingComponents;
      forall p | p in Kept(parserVariables)
        ensures p in net.parsers
      {
        KeptRegistered(this, p);
      }
      Optimize();
      SetupSynchronization();
    }
  }

  lemma KeptRegistered(engine: Engine, p: ParserVariable)
    requires engine.Valid() && p in Kept(engine.parserVariables)
    ensures p in engine.net.parsers
  {
    KeptExactly(engine.parserVariables, p);
  }

  /** What `setupSynchronization` leaves behind at each parser variable. */
  ghost predicate Served(p: ParserVariable)
    reads p`notifiedVariables, p`isConstant, p`synchronizer
  {
    p.notifiedVariables != [] && !p.isConstant ==> p.synchronizer != null
  }

  lemma AllServed(net: Network, ps: seq<ParserVariable>)
    requires net.parsers == Elements(ps) && forall j | 0 <= j < |ps| :: Served(ps[j])
    ensures NotifiersMarked(net)
  {
    forall p | p in net.parsers
      ensures Served(p)
    {
      var j :| 0 <= j < |ps| && ps[j] == p;
    }
  }

  lemma ConstantsUnmarked(net: Network, roots: map<Synchronizer, ParserVariable>)
    requires Wired(net) && Divided(net, roots)
    ensures forall p | p in net.parsers && p.isConstant :: p.synchronizer == null
  {}

  /** Where the rest of the list agrees with the rest of the list it started from. */
  lemma RestOf(ps: seq<ParserVariable>, all: seq<ParserVariable>, i: nat, done: nat)
    requires NoRepeats(ps) && i < |ps| && done <= |all| && ps[i..] == all[done..]
    ensures done < |all| && all[done] == ps[i] && all[..done + 1] == all[..done] + [ps[i]]
    ensures forall n | done < n < |all| :: all[n] in ps && all[n] != ps[i]
    ensures var rest := ps[..i] + ps[i + 1..]; rest[i..] == all[done + 1..] && rest[..i] == ps[..i]
    ensures ps[i + 1..] == all[done + 1..] && ps[..i + 1] == ps[..i] + [ps[i]]
  {
    assert ps[i..][0] == all[done..][0] && ps[i..][1..] == all[done..][1..];
    assert forall n | done < n < |all| :: all[n] == all[done..][n - done] == ps[i + n - done];
  }

  lemma KeptSteps(ps: seq<ParserVariable>)
    ensures Kept([]) == [] && ps[..|ps|] == ps
    ensures forall n | 0 <= n < |ps| ::
      Kept(ps[..n + 1]) == Kept(ps[..n]) + if Unused(ps[n]) then [] else [ps[n]]
  {
    forall n | 0 <= n < |ps|
      ensures Kept(ps[..n + 1]) == Kept(ps[..n]) + if Unused(ps[n]) then [] else [ps[n]]
    {
      assert ps[..n + 1][..n] == ps[..n];
    }
  }

  lemma ElementsRemove(ps: seq<ParserVariable>, i: nat)
    requires NoRepeats(ps) && i < |ps|
    ensures forall p | p in ps :: p in Elements(ps)
    ensures var rest := ps[..i] + ps[i + 1..];
      NoRepeats(rest) && Elements(rest) == Elements(ps) - {ps[i]} && forall p | p in ps && p != ps[i] :: p in rest
  {}

  lemma OutputsFedWithout(net: Network, p: ParserVariable)
    requires OutputsFed(net)
    ensures OutputsFed(Without(net, p))
  {
    assert Outputs(Without(net, p)) <= Outputs(net);
  }

  lemma NothingDivided(engine: Engine)
    requires engine.Valid() && forall p | p in engine.net.parsers :: p.synchronizer == null
    ensures Wired(engine.net) && Divided(engine.net, map[])
  {
    EdgesTurn(engine.net);
  }

  lemma SourceVaries(net: Network, v: Variable)
    requires Ready(net) && v in net.vars && v.calculation == null
    ensures Varying(v.listeners)
  {
    ListenersWired(net, v);
  }

  lemma ListenersWired(net: Network, v: Variable)
    requires Wired(net) && v in net.vars
    ensures forall p | p in v.listeners :: p in net.parsers && p.variable == v
  {}

  /** `optimize` removes exactly what nothing uses and so no input of any formula. */
  lemma {:induction false} KeptExactly(ps: seq<ParserVariable>, p: ParserVariable)
    ensures p in Kept(ps) <==> p in ps && !Unused(p)
  {
    if ps != [] {
      KeptExactly(ps[..|ps| - 1], p);
      assert ps == ps[..|ps| - 1] + [ps[|ps| - 1]];
    }
  }

  lemma InputsKept(net: Network, ps: seq<ParserVariable>, c: CalculatedVariable, p: ParserVariable)
    requires Wired(net) && net.parsers == Elements(ps) && c in net.calcs && UsedBy(p, c)
    ensures p in Kept(ps)
  {
    assert p in c.valueVariables + c.statusVariables;
    KeptExactly(ps, p);
  }

  lemma InElements<T>(s: seq<T>, x: T)
    requires x in s
    ensures x in Elements(s)
  {}

  /** A variable that only a parser variable without formulas listens to. */
  lemma NothingBelow(net: Network, v: Variable, pv: ParserVariable)
    requires Wired(net) && v in net.vars && v.listeners == [pv] && pv.notifiedVariables == []
    ensures Below(net, v) == {}
  {
    BelowNone(net, pv, pv.notifiedVariables);
    BelowNothing(net, v, v.listeners[..0]);
    BelowAllStep(net, v, 0);
    assert v.listeners[..1] == v.listeners;
  }

  lemma SettledExcept(net: Network, stale: set<CalculatedVariable>)
    requires Wired(net) && AllSettled(net, {})
    ensures AllSettled(net, stale)
  {}

  lemma {:induction false} FirstNamedIn(ps: seq<ParserVariable>, name: Name)
    requires FirstNamed(ps, name).Some?
    ensures FirstNamed(ps, name).value in ps && FirstNamed(ps, name).value.variable.name == name
  {
    if ps[0].variable.name != name {
      FirstNamedIn(ps[1..], name);
    }
  }

  lemma NewestUnheard(net: Network, c: CalculatedVariable)
    requires Wired(net) && Newest(net, c)
    ensures c in net.calcs && !c.updated
    ensures forall p | p in net.parsers :: p.variable.calculation != c && p.variable.rank < c.node.rank
  {}

  lemma {:induction false} FirstNamedJoins(ps: seq<ParserVariable>, qs: seq<ParserVariable>, name: Name)
    ensures FirstNamed(ps + qs, name) ==
      if FirstNamed(ps, name).Some? then FirstNamed(ps, name) else FirstNamed(qs, name)
  {
    if ps == [] {
      assert ps + qs == qs;
    } else {
      FirstNamedJoins(ps[1..], qs, name);
      assert (ps + qs)[1..] == ps[1..] + qs;
    }
  }

  lemma NotifiersAppend(ps: seq<ParserVariable>, pv: ParserVariable)
    requires pv.notifiedVariables == []
    ensures NotifiersFirst(ps) ==> NotifiersFirst(ps + [pv])
  {
    hide FirstNamed;
    forall p | NotifiersFirst(ps) && p in ps && p.notifiedVariables != []
      ensures FirstNamed(ps + [pv], p.variable.name) == Some(p)
    {
      FirstNamedJoins(ps, [pv], p.variable.name);
    }
  }

  lemma NotifiersRemove(ps: seq<ParserVariable>, i: nat)
    requires i < |ps| && NotifiersFirst(ps) && ps[i].notifiedVariables == []
    ensures NotifiersFirst(ps[..i] + ps[i + 1..])
  {
    hide FirstNamed;
    var a, b := ps[..i], ps[i + 1..];
    forall p: ParserVariable | p in a + b && p.notifiedVariables != []
      ensures FirstNamed(a + b, p.variable.name) == Some(p)
    {
      var name := p.variable.name;
      assert ps == a + ([ps[i]] + b) && p in ps;
      FirstNamedJoins(a, [ps[i]] + b, name);
      FirstNamedJoins([ps[i]], b, name);
      FirstNamedJoins(a, b, name);
      FirstNamedOne(ps[i], name);
    }
  }

  lemma FirstNamedOne(p: ParserVariable, name: Name)
    ensures FirstNamed([p], name) == if p.variable.name == name then Some(p) else None
  {
    assert [p][1..] == [];
  }

  /** Of the listeners of a source at most one has a mutex. */
  lemma OneMutex(engine: Engine, v: Variable)
    requires engine.Valid() && SharedExactly(engine.net) && v in engine.net.vars && v.calculation == null
    ensures |Mutexes(v.listeners)| <= 1
  {
    hide Wired, FirstNamed, AllSettled, AllDelivered, SharedExactly;
    var net, first := engine.net, FirstNamed(engine.parserVariables, v.name);
    SourceVaries(net, v);
    ListenersWired(net, v);
    forall p | p in v.listeners && p.synchronizer != null
      ensures first == Some(p)
    {
      MarkedNotifies(net, p);
    }
    var s := Mutexes(v.listeners);
    assert first.Some? && first.value.synchronizer != null ==> s <= {first.value.synchronizer};
    AtMostOne(s);
  }

  lemma AtMostOne(s: set<Synchronizer>)
    requires forall x, y | x in s && y in s :: x == y
    ensures |s| <= 1
  {
    if x :| x in s {
      assert s == {x};
    }
  }
}
