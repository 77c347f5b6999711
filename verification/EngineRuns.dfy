/**
 * Whole runs of a server: variables and formulas are configured and sources change in any order, then the engine is
 * pruned and given its mutexes, and sources go on changing. Whatever the run, the address space shows what `RunModel`
 * says of its commands.
 */
module EngineRuns {
  import opened CalculatedEngine
  import opened CalculatedVariables
  import opened Domains
  import opened Options
  import opened Quiescence
  import opened RunModel
  import opened Sequences

  // ----- a network as the image of the definitions

  /** The parser variables `ps` are those of the variables at these places. */
  ghost predicate ReadsFrom(ps: seq<ParserVariable>, vars: seq<Variable>, at: seq<nat>) {
    |ps| == |at| && forall m | 0 <= m < |ps| :: at[m] < |vars| && ps[m].variable == vars[at[m]]
  }

  /** The inputs are the variables that the definition's formulas name. */
  ghost predicate Linked(c: CalculatedVariable, vars: seq<Variable>, known: seq<Name>, d: Definition)
    requires d.Calculated? && Fits(known, d)
    reads c`valueVariables, c`statusVariables
  {
    && ReadsFrom(c.valueVariables, vars, Places(known, d.names))
    && ReadsFrom(c.statusVariables, vars, Places(known, d.StatusNames()))
  }

  ghost predicate BuiltAt(net: Network, defs: seq<Definition>, vars: seq<Variable>, i: nat)
    requires AllFit(defs) && i < |defs| == |vars|
    reads vars`calculation, net.calcs`valueVariables, net.calcs`statusVariables
  {
    && vars[i].name == defs[i].name
    && match defs[i]
       case Source(_) => vars[i].calculation == null
       case Calculated(_, _, formula, _, statusFormula, isBoolean, _) =>
         FitsAt(defs, i);
         var c := vars[i].calculation;
         && c != null && c in net.calcs && c.node == vars[i]
         && c.formula == formula && c.statusFormula == statusFormula && c.isBoolean == isBoolean
         && Linked(c, vars, Names(defs[..i]), defs[i])
  }

  /** The network has exactly the defined variables, each with the inputs that its formulas name. */
  ghost predicate Built(net: Network, defs: seq<Definition>, vars: seq<Variable>)
    requires AllFit(defs)
    reads vars`calculation, net.calcs`valueVariables, net.calcs`statusVariables
  {
    && |vars| == |defs| && net.vars == Elements(vars) && NoRepeats(vars)
    && forall i | 0 <= i < |defs| :: BuiltAt(net, defs, vars, i)
  }

  /** The sources hold the stored values, and what was never written has told nobody. */
  ghost predicate Holding(net: Network, w: World, vars: seq<Variable>, sources: seq<Variable>)
    reads sources`calculation, sources`dataValue
    reads net.parsers`fed, (set p | p in net.parsers :: p.variable)`calculation
    reads (set p | p in net.parsers :: p.variable)`dataValue
  {
    && |vars| == |w.defs| && |sources| == |w.stored| == Sources(w.defs) && NoRepeats(sources)
    && (forall i | 0 <= i < |w.defs| && w.defs[i].Source? ::
          Sources(w.defs[..i]) < |sources| && sources[Sources(w.defs[..i])] == vars[i])
    && (forall k | 0 <= k < |sources| ::
          sources[k] in vars && sources[k].calculation == null && sources[k].dataValue == w.stored[k])
    && (forall p | p in net.parsers && !p.fed && p.variable.calculation == null :: p.variable.dataValue == UNWRITTEN)
  }

  ghost function Calculations(vars: seq<Variable>): set<CalculatedVariable>
    reads vars`calculation
  {
    set v | v in vars && v.calculation != null :: v.calculation
  }

  /** Exactly the formulas that the world has waiting have not been evaluated, and these show their initial value. */
  ghost predicate Begun(w: World, vars: seq<Variable>)
    reads vars`calculation, Calculations(vars)`updated, Calculations(vars)`initial
  {
    && |vars| == |w.defs|
    && (forall i | 0 <= i < |vars| && vars[i].calculation != null :: vars[i].calculation.updated <==> i !in w.waiting)
    && (forall i | i in w.waiting :: i < |w.defs| && w.defs[i].Calculated? && vars[i].calculation != null
          && vars[i].calculation.initial == DataValue(w.defs[i].initialValue, OpcGood))
  }

  /** The network is what the run has led to. */
  ghost predicate Mirrored(net: Network, w: World, vars: seq<Variable>, sources: seq<Variable>)
    reads vars, sources`calculation, sources`dataValue, net.calcs`valueVariables, net.calcs`statusVariables
    reads Calculations(vars)`updated, Calculations(vars)`initial
    reads net.parsers`fed, (set p | p in net.parsers :: p.variable)`calculation
    reads (set p | p in net.parsers :: p.variable)`dataValue
  {
    AllFit(w.defs) && Built(net, w.defs, vars) && Holding(net, w, vars, sources) && Begun(w, vars)
  }

  /** Every variable publishes what `RunModel` says. */
  ghost predicate Shows(w: World, vars: seq<Variable>)
    requires AllFit(w.defs)
    reads vars`dataValue
  {
    |vars| == |w.defs| && forall i | 0 <= i < |vars| :: vars[i].dataValue == Value(w, i)
  }

  ghost function ShownBy(vars: seq<Variable>): (r: seq<DataValue>)
    reads vars`dataValue
    ensures |r| == |vars| && forall i | 0 <= i < |vars| :: r[i] == vars[i].dataValue
  {
    if vars == [] then [] else [vars[0].dataValue] + ShownBy(vars[1..])
  }

  /**
   * The published values explain each other: every formula that has been evaluated publishes what it makes of the
   * values that the variables it names publish themselves, with the status that its status formula calls for.
   */
  ghost predicate Explains(w: World, vars: seq<Variable>)
    requires AllFit(w.defs)
    reads vars`dataValue
  {
    |vars| == |w.defs| && forall i | 0 <= i < |vars| :: Explained(w, ShownBy(vars), i)
  }

  lemma ShowsExplains(w: World, vars: seq<Variable>)
    requires AllFit(w.defs) && Shows(w, vars)
    ensures Explains(w, vars)
  {
    hide AllFit, Value, Explained;
    forall i | 0 <= i < |vars|
      ensures Explained(w, ShownBy(vars), i)
    {
      ValuesExplained(w, ShownBy(vars), i);
    }
  }

  // ----- what such a network shows

  lemma {:induction false} ShowsAt(engine: Engine, w: World, vars: seq<Variable>, sources: seq<Variable>, i: nat)
    requires engine.Valid() && Mirrored(engine.net, w, vars, sources) && i < |w.defs|
    ensures vars[i].dataValue == Value(w, i)
    decreases i, 1, 0
  {
    hide Wired, Published, AllDelivered, OutputsFed, NotifiersFirst, Names, AllFit;
    assert BuiltAt(engine.net, w.defs, vars, i);
    if w.defs[i].Calculated? {
      var c := vars[i].calculation;
      assert Settled(c);
      if c.updated {
        FitsAt(w.defs, i);
        var known := Names(w.defs[..i]);
        InputsWired(engine.net, c);
        ArrivesAt(engine, w, vars, sources, i, c.valueVariables, Places(known, w.defs[i].names));
        ArrivesAt(engine, w, vars, sources, i, c.statusVariables, Places(known, w.defs[i].StatusNames()));
      }
    }
  }

  lemma {:induction false} ArrivesAt(engine: Engine, w: World, vars: seq<Variable>, sources: seq<Variable>, i: nat,
                                     ps: seq<ParserVariable>, at: seq<nat>)
    requires engine.Valid() && Mirrored(engine.net, w, vars, sources) && i < |w.defs|
    requires ReadsFrom(ps, vars, at) && Bounded(at, i) && forall p | p in ps :: p in engine.net.parsers
    ensures Readings(ps) == Arriving(w, i, at)
    decreases i, 0, |ps|
  {
    hide Wired, Received, AllSettled, NotifiersFirst, Built, Begun, AllFit, Value;
    if ps != [] {
      var p := ps[0];
      assert p in ps && p.variable == vars[at[0]];
      ShowsAt(engine, w, vars, sources, at[0]);
      assert Delivered(p);
      if !p.fed {
        UnfedUntold(engine, p);
      }
      ArrivesAt(engine, w, vars, sources, i, ps[1..], at[1..]);
    }
  }

  /** A parser variable that no value has reached holds what the unwritten value means. */
  lemma UnfedUntold(engine: Engine, p: ParserVariable)
    requires engine.Valid() && p in engine.net.parsers && !p.fed
    ensures p.variable.calculation == null && Received(UNWRITTEN) == UNTOLD
  {
    assert Outputs(engine.net) <= Fed(engine.net) && p !in Fed(engine.net);
  }

  // ----- configuration

  /** Before start-up every variable has one parser variable, in the order of definition. */
  ghost predicate Registered(engine: Engine, vars: seq<Variable>)
    reads engine`parserVariables, vars`listeners
  {
    && |engine.parserVariables| == |vars|
    && forall i | 0 <= i < |vars| ::
         engine.parserVariables[i].variable == vars[i] && vars[i].listeners == [engine.parserVariables[i]]
  }

  ghost predicate NoMutexes(net: Network)
    reads net.parsers`synchronizer
  {
    forall p | p in net.parsers :: p.synchronizer == null
  }

  /** The state of a run before start-up. */
  ghost predicate Configured(engine: Engine, w: World, vars: seq<Variable>, sources: seq<Variable>)
    reads engine, engine.net.vars, engine.net.parsers, engine.net.calcs, vars, sources, Calculations(vars)
    reads (set p | p in engine.net.parsers :: p.variable)
  {
    && engine.Valid() && NoMutexes(engine.net) && engine.numSynchronizers == 0
    && engine.numCalculatedVariables == |w.defs| - Sources(w.defs)
    && Registered(engine, vars) && Mirrored(engine.net, w, vars, sources)
  }

  lemma LinkedStays(c: CalculatedVariable, vars: seq<Variable>, v: Variable, known: seq<Name>, d: Definition)
    requires d.Calculated? && Fits(known, d) && Linked(c, vars, known, d)
    ensures Linked(c, vars + [v], known, d)
  {
    hide Places;
  }

  /** What was built before stays built when variables are added. */
  lemma BuiltStays(net: Network, net1: Network, defs: seq<Definition>, d: Definition, vars: seq<Variable>, v: Variable,
                   i: nat)
    requires AllFit(defs + [d]) && AllFit(defs) && i < |defs| == |vars| && BuiltAt(net, defs, vars, i)
    requires net.calcs <= net1.calcs
    ensures BuiltAt(net1, defs + [d], vars + [v], i)
  {
    hide AllFit, Fits, Names, Linked;
    assert (defs + [d])[..i] == defs[..i] && (defs + [d])[i] == defs[i] && (vars + [v])[i] == vars[i];
    FitsAt(defs, i);
    if defs[i].Calculated? {
      LinkedStays(vars[i].calculation, vars, v, Names(defs[..i]), defs[i]);
    }
  }

  lemma BuiltNext(net: Network, net1: Network, defs: seq<Definition>, d: Definition, vars: seq<Variable>, v: Variable)
    requires AllFit(defs + [d]) && AllFit(defs) && Built(net, defs, vars)
    requires net.calcs <= net1.calcs && net1.vars == net.vars + {v}
    requires v !in vars && BuiltAt(net1, defs + [d], vars + [v], |defs|)
    ensures Built(net1, defs + [d], vars + [v])
  {
    hide AllFit, BuiltAt;
    forall i | 0 <= i < |defs|
      ensures BuiltAt(net1, defs + [d], vars + [v], i)
    {
      BuiltStays(net, net1, defs, d, vars, v, i);
    }
  }

  /** One more source. */
  lemma SourceBuilt(net: Network, v: Variable, pv: ParserVariable, defs: seq<Definition>, name: Name,
                    vars: seq<Variable>)
    requires AllFit(defs) && AllFit(defs + [Source(name)]) && Built(net, defs, vars)
    requires v !in vars && v.name == name && v.calculation == null
    ensures Built(WithParser(net, v, pv), defs + [Source(name)], vars + [v])
  {
    hide AllFit, Fits, Names, Linked;
    var d := Source(name);
    assert (defs + [d])[|defs|] == d && (vars + [v])[|vars|] == v;
    BuiltNext(net, WithParser(net, v, pv), defs, d, vars, v);
  }

  lemma SourceHolding(net: Network, v: Variable, pv: ParserVariable, w: World, name: Name, vars: seq<Variable>,
                      sources: seq<Variable>)
    requires Holding(net, w, vars, sources) && v !in vars
    requires v.calculation == null && v.dataValue == UNWRITTEN && pv.variable == v
    ensures Holding(WithParser(net, v, pv), Defined(w, Source(name)), vars + [v], sources + [v])
  {
    hide Sources, AllFit, Fits;
    var d, w1, all := Source(name), Defined(w, Source(name)), sources + [v];
    AllFitNext(w.defs, d);
    assert forall u | u in sources :: u in vars && u != v;
    forall i | 0 <= i < |w1.defs| && w1.defs[i].Source?
      ensures Sources(w1.defs[..i]) < |all| && all[Sources(w1.defs[..i])] == (vars + [v])[i]
    {
      SourcesUpTo(w.defs, d, i);
    }
    SourcesKept(w, vars, sources, v);
  }

  lemma SourcesKept(w: World, vars: seq<Variable>, sources: seq<Variable>, v: Variable)
    requires |sources| == |w.stored| && NoRepeats(sources) && v !in sources
    requires forall k | 0 <= k < |sources| ::
      sources[k] in vars && sources[k].calculation == null && sources[k].dataValue == w.stored[k]
    requires v.calculation == null && v.dataValue == UNWRITTEN
    ensures var all, stored := sources + [v], w.stored + [UNWRITTEN];
      && NoRepeats(all)
      && forall k | 0 <= k < |all| ::
           all[k] in vars + [v] && all[k].calculation == null && all[k].dataValue == stored[k]
  {}

  lemma BegunNext(w: World, vars: seq<Variable>, d: Definition, v: Variable)
    requires Begun(w, vars) && (v.calculation != null <==> d.Calculated?)
    requires d.Calculated? ==> (v.calculation.updated <==> d.initialValue.None?)
    requires d.Calculated? && d.initialValue.Some? ==> v.calculation.initial == DataValue(d.initialValue, OpcGood)
    ensures Begun(Defined(w, d), vars + [v])
  {
    var vars1, w1 := vars + [v], Defined(w, d);
    assert forall i | 0 <= i < |vars| :: vars1[i] == vars[i] && w1.defs[i] == w.defs[i];
  }

  lemma RegisteredNext(engine: Engine, ps: seq<ParserVariable>, vars: seq<Variable>, v: Variable, pv: ParserVariable)
    requires |ps| == |vars| && forall i | 0 <= i < |vars| :: ps[i].variable == vars[i] && vars[i].listeners == [ps[i]]
    requires engine.parserVariables == ps + [pv] && pv.variable == v && v.listeners == [pv]
    ensures Registered(engine, vars + [v])
  {}

  /** Registers a new variable; what mirrors the run so far goes on doing so. */
  method AddSource(engine: Engine, ghost w: World, ghost vars: seq<Variable>, ghost sources: seq<Variable>, name: Name)
    returns (v: Variable, pv: ParserVariable)
    requires engine.Valid() && NoMutexes(engine.net) && Mirrored(engine.net, w, vars, sources)
    modifies engine
    ensures engine.Valid() && NoMutexes(engine.net) && engine.numSynchronizers == old(engine.numSynchronizers)
    ensures engine.numCalculatedVariables == old(engine.numCalculatedVariables)
    ensures fresh(v) && fresh(pv) && v.name == name && v.calculation == null && v.dataValue == UNWRITTEN
    ensures pv.variable == v && v.listeners == [pv] && engine.parserVariables == old(engine.parserVariables) + [pv]
    ensures engine.net == WithParser(old(engine.net), v, pv) && Mirrored(old(engine.net), w, vars, sources)
  {
    hide Wired, AllSettled, AllDelivered, Ready, NoRepeats, SourcesFirst, Outputs, NotifiersFirst,
         Sources, AllFit, BuiltAt, OutputsFed, ReadyBut, Names, Fits;
    v := new Variable(name, 0);
    pv := engine.RegisterVariable(v);
  }

  /** A variable that a client or a device writes. */
  method MakeSource(engine: Engine, ghost w: World, ghost vars: seq<Variable>, ghost sources: seq<Variable>, name: Name)
    returns (v: Variable)
    requires Configured(engine, w, vars, sources)
    modifies engine, engine.net.vars
    ensures Configured(engine, Defined(w, Source(name)), vars + [v], sources + [v])
    ensures fresh(engine.net.vars - old(engine.net.vars)) && fresh(engine.net.parsers - old(engine.net.parsers))
    ensures engine.net.calcs == old(engine.net.calcs)
  {
    hide Wired, AllSettled, AllDelivered, Ready, NoRepeats, SourcesFirst, Outputs, NotifiersFirst,
         Sources, AllFit, Fits, Names, Built, Holding, Begun, OutputsFed;
    ghost var net, ps := engine.net, engine.parserVariables;
    BuiltVars(net, w.defs, vars);
    var pv;
    v, pv := AddSource(engine, w, vars, sources, name);
    AllFitNext(w.defs, Source(name));
    FitsSource(Names(w.defs), name);
    SourceBuilt(net, v, pv, w.defs, name, vars);
    SourceHolding(net, v, pv, w, name, vars, sources);
    BegunNext(w, vars, Source(name), v);
    RegisteredNext(engine, ps, vars, v, pv);
  }

  lemma FitsSource(known: seq<Name>, name: Name)
    ensures Fits(known, Source(name))
  {}

  lemma BuiltVars(net: Network, defs: seq<Definition>, vars: seq<Variable>)
    requires AllFit(defs) && Built(net, defs, vars)
    ensures net.vars == Elements(vars) && |vars| == |defs| && forall v :: v in vars <==> v in net.vars
  {}

  // ----- formulas find what their names mean

  ghost predicate NamedBy(ps: seq<ParserVariable>, known: seq<Name>) {
    |ps| == |known| && forall i | 0 <= i < |ps| :: ps[i].variable.name == known[i]
  }

  lemma {:induction false} FirstFound(ps: seq<ParserVariable>, known: seq<Name>, name: Name)
    requires NamedBy(ps, known)
    ensures FirstNamed(ps, name) == if name in known then Some(ps[FirstAt(known, name)]) else None
  {
    if ps != [] && known[0] != name {
      FirstFound(ps[1..], known[1..], name);
      assert name in known <==> name in known[1..];
    }
  }

  lemma AllFound(ps: seq<ParserVariable>, known: seq<Name>, names: seq<Name>)
    requires NamedBy(ps, known)
    ensures AllNamed(ps, names) <==> Known(known, names)
  {
    hide FirstNamed, NamedBy;
    forall n | n in names
      ensures FirstNamed(ps, n).Some? <==> n in known
    {
      FirstFound(ps, known, n);
    }
  }

  /** The inputs of a formula are the parser variables at the places of its names. */
  lemma {:induction false} InputsFound(ps: seq<ParserVariable>, known: seq<Name>, names: seq<Name>)
    requires NamedBy(ps, known) && NoRepeats(ps) && Known(known, names) && AllNamed(ps, names)
    ensures var r, at := Inputs(ps, names), Places(known, names);
      |r| == |at| && forall m | 0 <= m < |r| :: r[m] == ps[at[m]]
    decreases |names|
  {
    if names != [] {
      var n := |names| - 1;
      InputsFound(ps, known, names[..n]);
      FirstFound(ps, known, names[n]);
      SamePlace(ps, Inputs(ps, names[..n]), Places(known, names[..n]), FirstAt(known, names[n]));
    }
  }

  lemma SamePlace(ps: seq<ParserVariable>, r: seq<ParserVariable>, at: seq<nat>, i: nat)
    requires NoRepeats(ps) && i < |ps| && Bounded(at, |ps|)
    requires |r| == |at| && forall m | 0 <= m < |r| :: r[m] == ps[at[m]]
    ensures ps[i] in r <==> i in at
  {
    if i in at {
      var m :| 0 <= m < |at| && at[m] == i;
      assert r[m] == ps[i];
    }
    if ps[i] in r {
      var m :| 0 <= m < |r| && r[m] == ps[i];
      assert at[m] == i;
    }
  }

  lemma InputsLinked(c: CalculatedVariable, ps: seq<ParserVariable>, vars: seq<Variable>, v: Variable,
                     known: seq<Name>, d: Definition)
    requires NamedBy(ps, known) && NoRepeats(ps) && d.Calculated? && Fits(known, d)
    requires |ps| == |vars| && forall i | 0 <= i < |ps| :: ps[i].variable == vars[i]
    requires AllNamed(ps, d.names) && AllNamed(ps, d.StatusNames())
    requires c.valueVariables == Inputs(ps, d.names) && c.statusVariables == Inputs(ps, d.StatusNames())
    ensures Linked(c, vars + [v], known, d)
  {
    hide Places, Inputs, AllNamed, Known;
    InputsFound(ps, known, d.names);
    InputsFound(ps, known, d.StatusNames());
  }

  lemma RegisteredNamed(engine: Engine, net: Network, defs: seq<Definition>, vars: seq<Variable>)
    requires AllFit(defs) && Built(net, defs, vars) && Registered(engine, vars)
    ensures NamedBy(engine.parserVariables, Names(defs))
  {
    forall i | 0 <= i < |vars|
      ensures vars[i].name == defs[i].name
    {
      assert BuiltAt(net, defs, vars, i);
    }
  }

  lemma FormulaBuilt(net: Network, c: CalculatedVariable, pv: ParserVariable, defs: seq<Definition>, d: Definition,
                     vars: seq<Variable>)
    requires AllFit(defs) && AllFit(defs + [d]) && Built(net, defs, vars) && d.Calculated? && Fits(Names(defs), d)
    requires c.node.name == d.name && c.node.calculation == c && c.formula == d.formula
    requires c.statusFormula == d.statusFormula && c.isBoolean == d.isBoolean
    requires c.node !in vars && Linked(c, vars + [c.node], Names(defs), d)
    ensures Built(WithParser(WithCalculation(net, c), c.node, pv), defs + [d], vars + [c.node])
  {
    hide AllFit, Fits, Names, Linked;
    assert (defs + [d])[|defs|] == d && (vars + [c.node])[|vars|] == c.node && (defs + [d])[..|defs|] == defs;
    BuiltNext(net, WithParser(WithCalculation(net, c), c.node, pv), defs, d, vars, c.node);
  }

  lemma FormulaHolding(net: Network, c: CalculatedVariable, pv: ParserVariable, w: World, d: Definition,
                       vars: seq<Variable>, sources: seq<Variable>)
    requires Holding(net, w, vars, sources) && d.Calculated?
    requires c.node.calculation == c && pv.variable == c.node
    ensures Holding(WithParser(WithCalculation(net, c), c.node, pv), Defined(w, d), vars + [c.node], sources)
  {
    hide Sources;
    AllFitNext(w.defs, d);
    forall i | 0 <= i <= |w.defs|
      ensures Sources((w.defs + [d])[..i]) == Sources(w.defs[..i])
    {
      SourcesUpTo(w.defs, d, i);
    }
  }

  lemma BuiltCalculations(net: Network, defs: seq<Definition>, vars: seq<Variable>)
    requires AllFit(defs) && Built(net, defs, vars)
    ensures forall v | v in vars && v.calculation != null :: v.calculation in net.calcs
  {
    forall i | 0 <= i < |vars| && vars[i].calculation != null
      ensures vars[i].calculation in net.calcs
    {
      assert BuiltAt(net, defs, vars, i);
    }
  }

  /** Instantiates a formula; what mirrors the run so far goes on doing so. */
  method AddFormula(engine: Engine, ghost w: World, ghost vars: seq<Variable>, ghost sources: seq<Variable>,
                    d: Definition)
    returns (c: CalculatedVariable, ok: bool)
    requires engine.Valid() && NoMutexes(engine.net) && Mirrored(engine.net, w, vars, sources) && d.Calculated?
    modifies engine, engine.net.parsers`notifiedVariables, engine.net.vars`dataValue
    modifies engine.net.parsers`value, engine.net.parsers`state, engine.net.parsers`fed, engine.net.calcs`updated
    ensures ok <==> AllNamed(old(engine.parserVariables), d.names) &&
                    AllNamed(old(engine.parserVariables), d.StatusNames())
    ensures ok ==> engine.Valid() && NoMutexes(engine.net) && engine.numSynchronizers == old(engine.numSynchronizers)
    ensures ok ==> engine.numCalculatedVariables == old(engine.numCalculatedVariables) + 1
    ensures fresh(c) && fresh(c.node) && c.node.name == d.name
    ensures c.formula == d.formula && c.statusFormula == d.statusFormula && c.isBoolean == d.isBoolean
    ensures ok ==> c.notifiedVariable != null && fresh(c.notifiedVariable) && c.notifiedVariable.variable == c.node
    ensures ok ==> c.node.listeners == [c.notifiedVariable] && c.node.calculation == c
    ensures ok ==> engine.parserVariables == old(engine.parserVariables) + [c.notifiedVariable]
    ensures ok ==> engine.net == WithParser(WithCalculation(old(engine.net), c), c.node, c.notifiedVariable)
    ensures ok ==> c.valueVariables == Inputs(old(engine.parserVariables), d.names)
    ensures ok ==> c.statusVariables == Inputs(old(engine.parserVariables), d.StatusNames())
    ensures ok ==> (c.updated <==> d.initialValue.None?)
    ensures ok && d.initialValue.Some? ==> c.initial == DataValue(d.initialValue, OpcGood)
    ensures ok ==> Mirrored(old(engine.net), w, vars, sources)
  {
    hide Wired, AllSettled, AllDelivered, Ready, NoRepeats, SourcesFirst, Outputs, NotifiersFirst,
         Sources, AllFit, Names, BuiltAt, OutputsFed, AllNamed, Inputs, Known, Places;
    ghost var net := engine.net;
    NoInputs(engine.parserVariables);
    BuiltVars(net, w.defs, vars);
    BuiltCalculations(net, w.defs, vars);
    ParsersKnown(net);
    c, ok := engine.Instantiate(d.name, d.names, d.formula, d.statusNames, d.statusFormula, d.isBoolean,
                                d.initialValue);
    assert ok ==> forall p | p in net.parsers :: old(p.fed) ==> p in Fed(engine.net);
    assert ok ==> (c in Updated(engine.net) <==> d.initialValue.None?);
    assert ok ==> forall v | v in vars && v.calculation != null ::
      v.calculation in old(Updated(net)) <==> v.calculation in Updated(engine.net);
  }

  /** A calculated variable; not `ok` when a formula asks for an unknown name. */
  method MakeFormula(engine: Engine, ghost w: World, ghost vars: seq<Variable>, ghost sources: seq<Variable>,
                     d: Definition)
    returns (v: Variable, ok: bool)
    requires Configured(engine, w, vars, sources) && d.Calculated?
    modifies engine, engine.net.vars, engine.net.parsers, engine.net.calcs
    ensures ok <==> Fits(Names(w.defs), d)
    ensures ok ==> Configured(engine, Defined(w, d), vars + [v], sources)
    ensures ok ==> fresh(engine.net.vars - old(engine.net.vars)) && fresh(engine.net.parsers - old(engine.net.parsers))
    ensures ok ==> fresh(engine.net.calcs - old(engine.net.calcs))
  {
    hide Wired, AllSettled, AllDelivered, Ready, NoRepeats, SourcesFirst, Outputs, NotifiersFirst,
         Sources, AllFit, Names, Built, Holding, Begun, OutputsFed, AllNamed, Inputs, Known, Places, NamedBy;
    ghost var net, ps := engine.net, engine.parserVariables;
    RegisteredNamed(engine, net, w.defs, vars);
    AllFound(ps, Names(w.defs), d.names);
    AllFound(ps, Names(w.defs), d.StatusNames());
    BuiltVars(net, w.defs, vars);
    var c;
    c, ok := AddFormula(engine, w, vars, sources, d);
    v := c.node;
    if ok {
      AllFitNext(w.defs, d);
      InputsLinked(c, ps, vars, v, Names(w.defs), d);
      FormulaBuilt(net, c, c.notifiedVariable, w.defs, d, vars);
      FormulaHolding(net, c, c.notifiedVariable, w, d, vars, sources);
      BegunNext(w, vars, d, v);
      RegisteredNext(engine, ps, vars, v, c.notifiedVariable);
    }
  }

  lemma NoInputs(ps: seq<ParserVariable>)
    ensures AllNamed(ps, []) && Inputs(ps, []) == []
  {}

  // ----- what a change reaches

  /** The formula of variable `j` reads variable `i` exactly when it names it. */
  lemma ReadsLinked(net: Network, defs: seq<Definition>, vars: seq<Variable>, i: nat, j: nat)
    requires AllFit(defs) && Built(net, defs, vars) && i < |defs| && j < |defs| && vars[j].calculation != null
    ensures vars[j].calculation in net.calcs && vars[j].calculation.node == vars[j]
    ensures ReadsItself(vars[j].calculation, vars[i]) <==> Reads(defs, j, i)
    ensures Reads(defs, j, i) ==> i < j
  {
    hide AllFit, Names, Places;
    assert BuiltAt(net, defs, vars, j);
    FitsAt(defs, j);
    var known, c := Names(defs[..j]), vars[j].calculation;
    ReadsPlace(vars, i, c.valueVariables, Places(known, defs[j].names));
    ReadsPlace(vars, i, c.statusVariables, Places(known, defs[j].StatusNames()));
  }

  lemma ReadsPlace(vars: seq<Variable>, i: nat, ps: seq<ParserVariable>, at: seq<nat>)
    requires NoRepeats(vars) && i < |vars| && ReadsFrom(ps, vars, at)
    ensures (exists p | p in ps :: p.variable == vars[i]) <==> i in at
  {
    if i in at {
      var m :| 0 <= m < |at| && at[m] == i;
      assert ps[m] in ps;
    }
    if p :| p in ps && p.variable == vars[i] {
      var m :| 0 <= m < |ps| && ps[m] == p;
      assert at[m] == i;
    }
  }

  /** Every calculated variable of the network is defined. */
  lemma DefinedBy(net: Network, defs: seq<Definition>, vars: seq<Variable>, c: CalculatedVariable) returns (j: nat)
    requires Wired(net) && AllFit(defs) && Built(net, defs, vars) && c in net.calcs
    ensures j < |vars| && vars[j] == c.node && vars[j].calculation == c
  {
    hide AllFit, BuiltAt;
    NodeWired(net, c);
    assert c.node in Elements(vars);
    j :| 0 <= j < |vars| && vars[j] == c.node;
  }

  /** What a change updates in the network is what it reaches by the definitions. */
  lemma {:induction false} ReachesBelow(net: Network, defs: seq<Definition>, vars: seq<Variable>, i: nat, k: nat)
    requires Wired(net) && AllFit(defs) && Built(net, defs, vars)
    requires i < |defs| && k < |defs| && vars[k].calculation != null
    ensures vars[i] in net.vars && (vars[k].calculation in Below(net, vars[i]) <==> Reaches(defs, i, k))
    decreases |defs| - i
  {
    hide Wired, AllFit, BuiltAt, Reads, Below, ReadsItself;
    assert vars[i] in Elements(vars);
    var c := vars[k].calculation;
    BelowHas(net, vars[i], c);
    ReadsLinked(net, defs, vars, i, k);
    if c in Below(net, vars[i]) {
      var d :| d in net.calcs && ReadsItself(d, vars[i]) && (d == c || c in Below(net, d.node));
      var j := DefinedBy(net, defs, vars, d);
      ReadsLinked(net, defs, vars, i, j);
      if d == c {
        assert vars[j] == vars[k];
      } else {
        ReachesBelow(net, defs, vars, j, k);
      }
    }
    if Reaches(defs, i, k) {
      var j :| i < j < |defs| && Reads(defs, j, i) && (j == k || Reaches(defs, j, k));
      FormulaBuiltAt(net, defs, vars, i, j);
      if j != k {
        ReachesBelow(net, defs, vars, j, k);
      }
    }
  }

  lemma FormulaBuiltAt(net: Network, defs: seq<Definition>, vars: seq<Variable>, i: nat, j: nat)
    requires AllFit(defs) && Built(net, defs, vars) && i < |defs| && j < |defs| && Reads(defs, j, i)
    ensures vars[j].calculation != null && vars[j].calculation in net.calcs && vars[j].calculation.node == vars[j]
    ensures ReadsItself(vars[j].calculation, vars[i])
  {
    assert BuiltAt(net, defs, vars, j);
    ReadsLinked(net, defs, vars, i, j);
  }

  /** The place of a source among all variables. */
  lemma SourcePlace(net: Network, w: World, vars: seq<Variable>, sources: seq<Variable>, source: nat) returns (i: nat)
    requires AllFit(w.defs) && Built(net, w.defs, vars) && Holding(net, w, vars, sources) && source < |sources|
    ensures i < |w.defs| && vars[i] == sources[source] && w.defs[i].Source? && Sources(w.defs[..i]) == source
    ensures forall k :: Touches(w.defs, source, k) <==> Reaches(w.defs, i, k)
  {
    hide AllFit, Sources, Reaches;
    i :| 0 <= i < |vars| && vars[i] == sources[source];
    assert BuiltAt(net, w.defs, vars, i);
    forall j | 0 <= j < |w.defs| && w.defs[j].Source? && Sources(w.defs[..j]) == source
      ensures j == i
    {
      assert vars[j] == vars[i];
    }
  }

  // ----- commands and changes

  /** A source is written; whatever it sets off happens under the mutexes of its own listeners. */
  method Write(engine: Engine, ghost w: World, ghost vars: seq<Variable>, sources: seq<Variable>, source: nat,
               dv: DataValue)
    returns (ghost taken: set<Synchronizer>)
    requires engine.Valid() && Mirrored(engine.net, w, vars, sources)
    modifies engine.net.vars`dataValue, engine.net.parsers`value, engine.net.parsers`state, engine.net.parsers`fed
    modifies engine.net.calcs`updated
    ensures engine.Valid() && Mirrored(engine.net, Changed(w, source, dv), vars, sources)
    ensures InStep(engine.net) ==> taken == if source < |sources| then Mutexes(sources[source].listeners) else {}
    ensures InStep(engine.net) && SharedExactly(engine.net) ==> |taken| <= 1
  {
    hide Wired, AllSettled, AllDelivered, Ready, NoRepeats, SourcesFirst, Outputs, NotifiersFirst,
         Sources, AllFit, Names, BuiltAt, OutputsFed, SharedExactly, InStep, Mutexes, Below, Touches, Reaches;
    taken := {};
    if source < |sources| {
      ghost var net := engine.net;
      var v := sources[source];
      BuiltVars(net, w.defs, vars);
      BuiltCalculations(net, w.defs, vars);
      ghost var i := SourcePlace(net, w, vars, sources, source);
      taken := engine.UpdateSource(v, dv);
      OthersDiffer(sources, source);
      forall k | 0 <= k < |vars| && vars[k].calculation != null
        ensures vars[k].calculation in Updated(net) <==>
          vars[k].calculation in old(Updated(net)) || Reaches(w.defs, i, k)
      {
        ReachesBelow(net, w.defs, vars, i, k);
      }
      forall p | p in net.parsers && !p.fed && p.variable.calculation == null
        ensures p.variable.dataValue == UNWRITTEN
      {
        UnfedElsewhere(net, v, p);
        assert p !in old(Fed(net));
      }
    }
  }

  lemma OthersDiffer(sources: seq<Variable>, k: nat)
    requires NoRepeats(sources) && k < |sources|
    ensures forall j | 0 <= j < |sources| && j != k :: sources[j] != sources[k]
  {}

  lemma UnfedElsewhere(net: Network, v: Variable, p: ParserVariable)
    requires Wired(net) && Elements(v.listeners) <= Fed(net) && p in net.parsers && !p.fed
    ensures p.variable in net.vars && p.variable != v
  {
    assert p in Elements(p.variable.listeners);
  }

  /** One command of the configuration; not `ok` when a formula asks for an unknown name. */
  method Execute(engine: Engine, ghost w: World, vars: seq<Variable>, sources: seq<Variable>, command: Command)
    returns (vars1: seq<Variable>, sources1: seq<Variable>, ok: bool)
    requires Configured(engine, w, vars, sources)
    modifies engine, engine.net.vars, engine.net.parsers, engine.net.calcs
    ensures ok <==> AllFit(Executed(w, command).defs)
    ensures ok ==> Configured(engine, Executed(w, command), vars1, sources1)
    ensures ok ==> fresh(engine.net.vars - old(engine.net.vars)) && fresh(engine.net.parsers - old(engine.net.parsers))
    ensures ok ==> fresh(engine.net.calcs - old(engine.net.calcs))
  {
    hide Wired, AllSettled, AllDelivered, Ready, NoRepeats, SourcesFirst, Outputs, NotifiersFirst,
         Sources, AllFit, Names, Built, Holding, Begun, OutputsFed, Fits, Touches;
    vars1, sources1, ok := vars, sources, true;
    match command {
      case Define(Source(name)) =>
        AllFitNext(w.defs, Source(name));
        FitsSource(Names(w.defs), name);
        var v := MakeSource(engine, w, vars, sources, name);
        vars1, sources1 := vars + [v], sources + [v];
      case Define(d) =>
        AllFitNext(w.defs, d);
        var v;
        v, ok := MakeFormula(engine, w, vars, sources, d);
        vars1 := vars + [v];
      case Change(source, dv) =>
        ghost var taken := Write(engine, w, vars, sources, source, dv);
    }
  }

  lemma AllShown(engine: Engine, w: World, vars: seq<Variable>, sources: seq<Variable>)
    requires engine.Valid() && Mirrored(engine.net, w, vars, sources)
    ensures Shows(w, vars)
  {
    hide Wired, AllSettled, AllDelivered, AllFit, BuiltAt, Value;
    forall i | 0 <= i < |w.defs|
      ensures vars[i].dataValue == Value(w, i)
    {
      ShowsAt(engine, w, vars, sources, i);
    }
  }

  /**
   * A whole configuration, from an empty engine. It fails exactly when a formula asks for a name that is not defined
   * before it; otherwise the engine has exactly the variables defined, and each publishes what `RunModel` says.
   */
  method Configure(commands: seq<Command>)
    returns (engine: Engine, vars: seq<Variable>, sources: seq<Variable>, ok: bool)
    ensures fresh(engine) && (ok <==> AllFit(Run(commands).defs))
    ensures ok ==> Configured(engine, Run(commands), vars, sources)
    ensures ok ==> Shows(Run(commands), vars) && Explains(Run(commands), vars)
    ensures ok ==> fresh(engine.net.vars) && fresh(engine.net.parsers) && fresh(engine.net.calcs)
  {
    hide Wired, AllSettled, AllDelivered, Ready, NoRepeats, SourcesFirst, Outputs, NotifiersFirst,
         AllFit, Fits, Names, Holding, Begun, Built, Registered, Shows, Explains, OutputsFed, Run, Executed, Sources;
    engine := new Engine();
    vars, sources, ok := [], [], true;
    NothingDone(engine);
    var i := 0;
    assert commands[..0] == [];
    while i < |commands|
      invariant i <= |commands| && ok && fresh(engine) && Configured(engine, Run(commands[..i]), vars, sources)
      invariant fresh(engine.net.vars) && fresh(engine.net.parsers) && fresh(engine.net.calcs)
    {
      assert commands[..i + 1] == commands[..i] + [commands[i]];
      RunNext(commands[..i], commands[i]);
      vars, sources, ok := Execute(engine, Run(commands[..i]), vars, sources, commands[i]);
      if !ok {
        NeverFits(commands, i + 1);
        return;
      }
      i := i + 1;
    }
    assert commands[..i] == commands;
    AllShown(engine, Run(commands), vars, sources);
    ShowsExplains(Run(commands), vars);
  }

  lemma NothingDone(engine: Engine)
    requires engine.Valid() && engine.parserVariables == [] && engine.net == Network({}, {}, {}, 1)
    requires engine.numSynchronizers == 0 && engine.numCalculatedVariables == 0
    ensures Configured(engine, Run([]), [], [])
  {}

  // ----- start-up and after

  lemma RegisteredOnce(engine: Engine, vars: seq<Variable>, i: nat, j: nat)
    requires engine.Valid() && Registered(engine, vars) && i < |vars| && j < |vars| && vars[i] == vars[j]
    ensures i == j
  {
    assert vars[i].listeners[0] == engine.parserVariables[i] == engine.parserVariables[j];
  }

  /** A variable notifies something exactly when some formula names it. */
  lemma NotifiesUsed(engine: Engine, defs: seq<Definition>, vars: seq<Variable>, i: nat)
    requires engine.Valid() && Registered(engine, vars) && AllFit(defs) && Built(engine.net, defs, vars) && i < |defs|
    ensures engine.parserVariables[i].notifiedVariables != [] <==> Used(defs, i)
  {
    hide AllFit, Reads, ReadsItself, Wired, AllSettled, AllDelivered, BuiltAt;
    var p, net := engine.parserVariables[i], engine.net;
    assert vars[i] in Elements(vars) && p in net.parsers;
    if p.notifiedVariables != [] {
      var c := p.notifiedVariables[0];
      NotifiedWired(net, p, c);
      ReadersNotified(net, vars[i], c);
      var j := DefinedBy(net, defs, vars, c);
      ReadsLinked(net, defs, vars, i, j);
    }
    if Used(defs, i) {
      var j :| i < j < |defs| && Reads(defs, j, i);
      FormulaBuiltAt(net, defs, vars, i, j);
      ReadersNotified(net, vars[i], vars[j].calculation);
    }
  }

  /** The engine keeps exactly the variables that some formula names. */
  ghost predicate Pruned(ps: seq<ParserVariable>, defs: seq<Definition>, vars: seq<Variable>)
  {
    |vars| == |defs| && forall i | 0 <= i < |defs| :: (exists p | p in ps :: p.variable == vars[i]) <==> Used(defs, i)
  }

  lemma KeptPruned(engine: Engine, defs: seq<Definition>, vars: seq<Variable>)
    requires engine.Valid() && Registered(engine, vars) && AllFit(defs) && Built(engine.net, defs, vars)
    ensures Pruned(Kept(engine.parserVariables), defs, vars)
  {
    hide AllFit, Used, Kept, Wired, AllSettled, AllDelivered, BuiltAt, NotifiersFirst;
    var ps := engine.parserVariables;
    forall i | 0 <= i < |defs|
      ensures (exists p | p in Kept(ps) :: p.variable == vars[i]) <==> Used(defs, i)
    {
      NotifiesUsed(engine, defs, vars, i);
      KeptExactly(ps, ps[i]);
      forall p | p in Kept(ps) && p.variable == vars[i]
        ensures p == ps[i]
      {
        KeptExactly(ps, p);
        var k :| 0 <= k < |ps| && ps[k] == p;
        RegisteredOnce(engine, vars, i, k);
      }
      assert !Unused(ps[i]) <==> Used(defs, i);
    }
  }

  /** The state of a run after start-up. */
  ghost predicate Running(engine: Engine, w: World, vars: seq<Variable>, sources: seq<Variable>)
    reads engine, engine.net.vars, engine.net.parsers, engine.net.calcs, vars, sources, Calculations(vars)
    reads (set p | p in engine.net.parsers :: p.variable)
  {
    && engine.Valid() && SharedExactly(engine.net) && InStep(engine.net)
    && engine.numSynchronizers == |NotifyingComponents(engine.net)|
    && Mirrored(engine.net, w, vars, sources) && Pruned(engine.parserVariables, w.defs, vars)
  }

  lemma BuiltSame(net: Network, net1: Network, defs: seq<Definition>, vars: seq<Variable>)
    requires AllFit(defs) && Built(net, defs, vars) && net1.vars == net.vars && net1.calcs == net.calcs
    ensures Built(net1, defs, vars)
  {
    hide AllFit, Linked;
    forall i | 0 <= i < |defs|
      ensures BuiltAt(net1, defs, vars, i)
    {
      assert BuiltAt(net, defs, vars, i);
    }
  }

  /** Start-up: variables that no formula names are dropped from the engine, the rest get their mutexes. */
  method Start(engine: Engine, ghost w: World, ghost vars: seq<Variable>, ghost sources: seq<Variable>)
    requires Configured(engine, w, vars, sources)
    modifies engine, engine.net.vars`listeners, engine.net.calcs`notifiedVariable, engine.net.parsers`synchronizer
    ensures Running(engine, w, vars, sources)
    ensures engine.net.vars == old(engine.net.vars) && engine.net.calcs == old(engine.net.calcs)
    ensures engine.net.parsers <= old(engine.net.parsers)
  {
    hide Wired, AllSettled, AllDelivered, Ready, NoRepeats, SourcesFirst, Outputs, NotifiersFirst,
         AllFit, Names, BuiltAt, OutputsFed, SharedExactly, InStep, NotifyingComponents, Pruned, Kept, Sources;
    ghost var net := engine.net;
    KeptPruned(engine, w.defs, vars);
    engine.StartUp();
    BuiltSame(net, engine.net, w.defs, vars);
  }

  /** A source changes while the server runs: what it sets off takes at most one mutex, that of its own listeners. */
  method Change(engine: Engine, ghost w: World, ghost vars: seq<Variable>, sources: seq<Variable>, source: nat,
                dv: DataValue)
    returns (ghost taken: set<Synchronizer>)
    requires Running(engine, w, vars, sources)
    modifies engine.net.vars`dataValue, engine.net.parsers`value, engine.net.parsers`state, engine.net.parsers`fed
    modifies engine.net.calcs`updated
    ensures Running(engine, Changed(w, source, dv), vars, sources)
    ensures Shows(Changed(w, source, dv), vars) && Explains(Changed(w, source, dv), vars)
    ensures taken == (if source < |sources| then Mutexes(sources[source].listeners) else {}) && |taken| <= 1
  {
    hide Wired, AllSettled, AllDelivered, Ready, NoRepeats, SourcesFirst, Outputs, NotifiersFirst, AllFit, Names,
         Holding, Begun, Built, OutputsFed, SharedExactly, InStep, NotifyingComponents, Pruned, Shows, Explains,
         Mutexes, Touches;
    taken := Write(engine, w, vars, sources, source, dv);
    AllShown(engine, Changed(w, source, dv), vars, sources);
    ShowsExplains(Changed(w, source, dv), vars);
  }

  /**
   * A whole run: a configuration, start-up, and any number of changes. It fails exactly when a formula asks for a name
   * that is not defined before it; otherwise every variable publishes what `RunModel` says of these commands and
   * changes, and the engine keeps exactly the variables that formulas name.
   */
  method Serve(commands: seq<Command>, changes: seq<(nat, DataValue)>)
    returns (engine: Engine, vars: seq<Variable>, sources: seq<Variable>, ok: bool)
    ensures ok <==> AllFit(Run(commands).defs)
    ensures ok ==> Running(engine, ChangedAll(Run(commands), changes), vars, sources)
    ensures ok ==> Shows(ChangedAll(Run(commands), changes), vars) && Explains(ChangedAll(Run(commands), changes), vars)
  {
    hide Wired, AllSettled, AllDelivered, Ready, NoRepeats, SourcesFirst, Outputs, NotifiersFirst,
         AllFit, Holding, Begun, Built, OutputsFed, SharedExactly, InStep, NotifyingComponents, Pruned, Shows, Explains,
         Changed, Run;
    engine, vars, sources, ok := Configure(commands);
    if !ok {
      return;
    }
    ghost var w := Run(commands);
    Start(engine, w, vars, sources);
    var i := 0;
    while i < |changes|
      invariant i <= |changes| && fresh(engine)
      invariant Running(engine, ChangedAll(w, changes[..i]), vars, sources)
      invariant fresh(engine.net.vars) && fresh(engine.net.parsers) && fresh(engine.net.calcs)
    {
      assert changes[..i + 1][..i] == changes[..i];
      ghost var taken := Change(engine, ChangedAll(w, changes[..i]), vars, sources, changes[i].0, changes[i].1);
      i := i + 1;
    }
    assert changes[..i] == changes;
    AllShown(engine, ChangedAll(w, changes), vars, sources);
    ShowsExplains(ChangedAll(w, changes), vars);
  }
}
