/**
 * What a configuration means, without any objects: the variables it defines, when its formulas find their names, and
 * what every variable publishes for given source values.
 */
module RunModel {
  import opened CalculatedEngine
  import opened CalculatedVariables
  import opened Options
  import opened Sequences

  /** A variable that a client or a device writes, or one that formulas compute. */
  datatype Definition =
    | Source(name: Name)
    | Calculated(name: Name, names: seq<Name>, formula: Formula, statusNames: seq<Name>,
                 statusFormula: Option<Formula>, isBoolean: bool, initialValue: Option<Variant>)
  {
    /** The names that the status formula asks for, if there is one. */
    function StatusNames(): seq<Name> {
      if Calculated? && statusFormula.Some? then statusNames else []
    }
  }

  /** A change names its source by the order of definition; one that is not there changes nothing. */
  datatype Command =
    | Define(definition: Definition)
    | Change(source: nat, dv: DataValue)

  function Names(defs: seq<Definition>): (r: seq<Name>)
    ensures |r| == |defs| && forall i | 0 <= i < |defs| :: r[i] == defs[i].name
  {
    seq(|defs|, i requires 0 <= i < |defs| => defs[i].name)
  }

  predicate Known(known: seq<Name>, names: seq<Name>) {
    forall n | n in names :: n in known
  }

  /** Every name that the definition's formulas ask for is known. */
  predicate Fits(known: seq<Name>, d: Definition) {
    d.Calculated? ==> Known(known, d.names) && Known(known, d.StatusNames())
  }

  /** Every formula asks only for names defined before it. */
  predicate AllFit(defs: seq<Definition>) {
    defs == [] || (AllFit(defs[..|defs| - 1]) && Fits(Names(defs[..|defs| - 1]), defs[|defs| - 1]))
  }

  lemma {:induction false} FitsAt(defs: seq<Definition>, i: nat)
    requires AllFit(defs) && i < |defs|
    ensures Fits(Names(defs[..i]), defs[i])
    decreases |defs|
  {
    if i < |defs| - 1 {
      FitsAt(defs[..|defs| - 1], i);
      assert defs[..|defs| - 1][..i] == defs[..i];
    }
  }

  function Sources(defs: seq<Definition>): nat {
    if defs == [] then 0 else Sources(defs[..|defs| - 1]) + if defs[|defs| - 1].Source? then 1 else 0
  }

  const UNWRITTEN := DataValue(Some(Empty), OpcBadWaitingForInitialData)

  /**
   * What a run has led to: the variables in order, the last value of every source in order, and the variables that
   * still have their initial value.
   */
  datatype World = World(defs: seq<Definition>, stored: seq<DataValue>, waiting: set<nat>)

  // ----- what the variables publish

  /** The first place of a name. */
  function FirstAt(known: seq<Name>, name: Name): (i: nat)
    ensures i <= |known| && (i < |known| <==> name in known)
    ensures i < |known| ==> known[i] == name
  {
    if known == [] || known[0] == name then 0 else 1 + FirstAt(known[1..], name)
  }

  lemma {:induction false} NotBefore(known: seq<Name>, name: Name, k: nat)
    requires k < FirstAt(known, name)
    ensures known[k] != name
  {
    if k > 0 {
      NotBefore(known[1..], name, k - 1);
    }
  }

  predicate Bounded(at: seq<nat>, n: nat) {
    forall m | 0 <= m < |at| :: at[m] < n
  }

  /** The places of the variables that a formula reads: the first of each name, each once. */
  function Places(known: seq<Name>, names: seq<Name>): (r: seq<nat>)
    requires Known(known, names)
    ensures Bounded(r, |known|)
  {
    if names == [] then []
    else
      var before := Places(known, names[..|names| - 1]);
      var i := FirstAt(known, names[|names| - 1]);
      if i in before then before else before + [i]
  }

  /**
   * The places are those of the names and of nothing else, each once, in the order in which the formula first mentions
   * them.
   */
  lemma {:induction false} PlacesMean(known: seq<Name>, names: seq<Name>)
    requires Known(known, names)
    ensures NoRepeats(Places(known, names)) && forall n | n in names :: FirstAt(known, n) in Places(known, names)
    ensures forall m | 0 <= m < |Places(known, names)| ::
      Mentioned(known, names, Places(known, names)[..m], Places(known, names)[m])
    decreases |names|
  {
    hide FirstAt, Mentioned;
    if names != [] {
      var n := |names| - 1;
      var before, at := Places(known, names[..n]), Places(known, names);
      PlacesMean(known, names[..n]);
      assert forall x | x in names :: x in names[..n] || x == names[n];
      forall m | 0 <= m < |at|
        ensures Mentioned(known, names, at[..m], at[m])
      {
        if m < |before| {
          assert at[..m] == before[..m];
          MentionedEarlier(known, names, n, at[..m], at[m]);
        } else {
          assert at[..m] == before;
          MentionedLast(known, names, before);
        }
      }
    }
  }

  /** Some name is at place `i`, and all names before it are at places in `at`. */
  predicate Mentioned(known: seq<Name>, names: seq<Name>, at: seq<nat>, i: nat) {
    exists k: nat :: k < |names| && FirstAt(known, names[k]) == i &&
      forall j | 0 <= j < k :: FirstAt(known, names[j]) in at
  }

  lemma MentionedEarlier(known: seq<Name>, names: seq<Name>, n: nat, at: seq<nat>, i: nat)
    requires n <= |names| && Mentioned(known, names[..n], at, i)
    ensures Mentioned(known, names, at, i)
  {
    hide FirstAt;
    var k: nat :| k < n && FirstAt(known, names[..n][k]) == i &&
      forall j | 0 <= j < k :: FirstAt(known, names[..n][j]) in at;
    assert forall j | 0 <= j <= k :: names[..n][j] == names[j];
  }

  lemma MentionedLast(known: seq<Name>, names: seq<Name>, at: seq<nat>)
    requires names != [] && forall n | n in names[..|names| - 1] :: FirstAt(known, n) in at
    ensures Mentioned(known, names, at, FirstAt(known, names[|names| - 1]))
  {
    hide FirstAt;
    var k := |names| - 1;
    assert forall j | 0 <= j < k :: names[j] == names[..k][j] && names[..k][j] in names[..k];
  }

  /**
   * What variable `i` publishes: the stored value of a source, the initial value of a variable that still has it, and
   * otherwise what the formulas give on the readings of the variables they name, each worked out in turn.
   */
  function Value(w: World, i: nat): DataValue
    requires AllFit(w.defs) && i < |w.defs|
    decreases i, 1, 0
  {
    match w.defs[i]
    case Source(_) =>
      var k := Sources(w.defs[..i]);
      if k < |w.stored| then w.stored[k] else UNWRITTEN
    case Calculated(_, names, formula, _, statusFormula, isBoolean, initialValue) =>
      if i in w.waiting then DataValue(initialValue, OpcGood)
      else
        FitsAt(w.defs, i);
        var known := Names(w.defs[..i]);
        Published(Arriving(w, i, Places(known, names)),
                  Arriving(w, i, Places(known, w.defs[i].StatusNames())),
                  formula, statusFormula, isBoolean)
  }

  /** What arrives from the variables at these places, all before `i`. */
  function Arriving(w: World, i: nat, at: seq<nat>): (r: seq<Reading>)
    requires AllFit(w.defs) && i < |w.defs| && Bounded(at, i)
    ensures |r| == |at|
    decreases i, 0, |at|
  {
    if at == [] then []
    else [Received(Value(w, at[0]))] + Arriving(w, i, at[1..])
  }

  // ----- what published values have to do with each other

  /** What the published values of the variables at these places mean to a formula that reads them. */
  function Seen(shown: seq<DataValue>, at: seq<nat>): (r: seq<Reading>)
    requires Bounded(at, |shown|)
    ensures |r| == |at| && forall m | 0 <= m < |at| :: r[m] == Received(shown[at[m]])
  {
    seq(|at|, m requires 0 <= m < |at| => Received(shown[at[m]]))
  }

  /**
   * Of all published values: a source shows what was last stored, a variable that was never computed its initial value,
   * and any other what its formulas make of the values shown by the variables they name.
   */
  ghost predicate Explained(w: World, shown: seq<DataValue>, i: nat)
    requires AllFit(w.defs) && i < |w.defs| == |shown|
  {
    match w.defs[i]
    case Source(_) => Sources(w.defs[..i]) < |w.stored| ==> shown[i] == w.stored[Sources(w.defs[..i])]
    case Calculated(_, names, formula, _, statusFormula, isBoolean, initialValue) =>
      if i in w.waiting then shown[i] == DataValue(initialValue, OpcGood)
      else
        FitsAt(w.defs, i);
        var known := Names(w.defs[..i]);
        Publishes(shown[i], Seen(shown, Places(known, names)), Seen(shown, Places(known, w.defs[i].StatusNames())),
                  formula, statusFormula, isBoolean)
  }

  lemma {:induction false} ArrivingSeen(w: World, shown: seq<DataValue>, i: nat, at: seq<nat>)
    requires AllFit(w.defs) && i < |w.defs| == |shown| && Bounded(at, i)
    requires forall k | 0 <= k < |shown| :: shown[k] == Value(w, k)
    ensures Arriving(w, i, at) == Seen(shown, at)
    decreases |at|
  {
    hide AllFit, Value, Received;
    if at != [] {
      ArrivingSeen(w, shown, i, at[1..]);
    }
  }

  lemma ValuesExplained(w: World, shown: seq<DataValue>, i: nat)
    requires AllFit(w.defs) && i < |w.defs| == |shown| && forall k | 0 <= k < |shown| :: shown[k] == Value(w, k)
    ensures Explained(w, shown, i)
  {
    hide AllFit, Publishes, Published, Places, Names;
    if w.defs[i].Calculated? && i !in w.waiting {
      var d := w.defs[i];
      FitsAt(w.defs, i);
      var values, statuses := Places(Names(w.defs[..i]), d.names), Places(Names(w.defs[..i]), d.StatusNames());
      ArrivingSeen(w, shown, i, values);
      ArrivingSeen(w, shown, i, statuses);
      PublishedPublishes(Seen(shown, values), Seen(shown, statuses), d.formula, d.statusFormula, d.isBoolean);
    }
  }

  // ----- what a change reaches

  /** The formulas of variable `j` name variable `i`. */
  predicate Reads(defs: seq<Definition>, j: nat, i: nat)
    requires j < |defs|
  {
    && defs[j].Calculated? && Fits(Names(defs[..j]), defs[j])
    && (i in Places(Names(defs[..j]), defs[j].names) || i in Places(Names(defs[..j]), defs[j].StatusNames()))
  }

  /** Some formula names variable `i`. */
  predicate Used(defs: seq<Definition>, i: nat) {
    exists j | i < j < |defs| :: Reads(defs, j, i)
  }

  /** Variable `k` is computed from variable `i`, over any number of formulas. */
  predicate Reaches(defs: seq<Definition>, i: nat, k: nat)
    decreases |defs| - i
  {
    exists j | i < j < |defs| && Reads(defs, j, i) :: j == k || Reaches(defs, j, k)
  }

  /** Variable `k` is computed from this source. */
  predicate Touches(defs: seq<Definition>, source: nat, k: nat) {
    exists i | 0 <= i < |defs| && defs[i].Source? && Sources(defs[..i]) == source :: Reaches(defs, i, k)
  }

  // ----- runs

  function Defined(w: World, d: Definition): World {
    World(w.defs + [d], if d.Source? then w.stored + [UNWRITTEN] else w.stored,
          if d.Calculated? && d.initialValue.Some? then w.waiting + {|w.defs|} else w.waiting)
  }

  /** What is computed from the source is evaluated, so that it keeps its initial value no longer. */
  function Changed(w: World, source: nat, dv: DataValue): World {
    if source >= |w.stored| then w
    else World(w.defs, w.stored[source := dv], set k | k in w.waiting && !Touches(w.defs, source, k))
  }

  function Executed(w: World, command: Command): World {
    match command
    case Define(d) => Defined(w, d)
    case Change(source, dv) => Changed(w, source, dv)
  }

  function Run(commands: seq<Command>): World {
    if commands == [] then World([], [], {})
    else Executed(Run(commands[..|commands| - 1]), commands[|commands| - 1])
  }

  function ChangedAll(w: World, changes: seq<(nat, DataValue)>): World {
    if changes == [] then w
    else
      var last := changes[|changes| - 1];
      Changed(ChangedAll(w, changes[..|changes| - 1]), last.0, last.1)
  }

  lemma RunNext(commands: seq<Command>, command: Command)
    ensures Run(commands + [command]) == Executed(Run(commands), command)
  {
    assert (commands + [command])[..|commands|] == commands;
  }

  lemma AllFitNext(defs: seq<Definition>, d: Definition)
    ensures AllFit(defs + [d]) <==> AllFit(defs) && Fits(Names(defs), d)
    ensures Sources(defs + [d]) == Sources(defs) + if d.Source? then 1 else 0
  {
    assert (defs + [d])[..|defs|] == defs;
  }

  lemma SourcesUpTo(defs: seq<Definition>, d: Definition, i: nat)
    requires i <= |defs|
    ensures Sources((defs + [d])[..i]) == Sources(defs[..i]) && defs[..|defs|] == defs
  {
    assert (defs + [d])[..i] == defs[..i];
  }

  /** The definitions of a run, in order. */
  function Definitions(commands: seq<Command>): seq<Definition> {
    if commands == [] then []
    else (if commands[0].Define? then [commands[0].definition] else []) + Definitions(commands[1..])
  }

  lemma {:induction false} DefinitionsNext(commands: seq<Command>, c: Command)
    ensures Definitions(commands + [c]) == Definitions(commands) + if c.Define? then [c.definition] else []
  {
    if commands == [] {
      assert ([c])[1..] == [];
    } else {
      DefinitionsNext(commands[1..], c);
      assert (commands + [c])[1..] == commands[1..] + [c];
    }
  }

  /** What one command does to each part of a world. */
  lemma ExecutedParts(w: World, c: Command)
    ensures var after := Executed(w, c);
      && after.defs == w.defs + (if c.Define? then [c.definition] else [])
      && |after.stored| == |w.stored| + (if c.Define? && c.definition.Source? then 1 else 0)
      && forall k :: k in after.waiting <==>
           if c.Define?
           then k in w.waiting || (k == |w.defs| && c.definition.Calculated? && c.definition.initialValue.Some?)
           else k in w.waiting && !(c.source < |w.stored| && Touches(w.defs, c.source, k))
  {
    hide Touches;
  }

  /** A run has defined what it was told to, and nothing else. */
  lemma {:induction false} RunDefines(commands: seq<Command>)
    ensures Run(commands).defs == Definitions(commands) && |Run(commands).stored| == Sources(Definitions(commands))
  {
    if commands != [] {
      hide Definitions, Sources, Executed, Touches;
      var front, c := commands[..|commands| - 1], commands[|commands| - 1];
      RunDefines(front);
      assert front + [c] == commands;
      DefinitionsNext(front, c);
      ExecutedParts(Run(front), c);
      if c.Define? {
        AllFitNext(Run(front).defs, c.definition);
      } else {
        assert Run(front).defs + [] == Run(front).defs;
      }
    }
  }

  /** Command `j` writes `dv` to source `k`, which is defined by then. */
  predicate Writes(commands: seq<Command>, j: nat, k: nat, dv: DataValue) {
    j < |commands| && commands[j] == Change(k, dv) && k < Sources(Definitions(commands[..j]))
  }

  /** A source holds what was last written to it. */
  lemma {:induction false} StoredIsLast(commands: seq<Command>, k: nat)
    requires k < |Run(commands).stored|
    ensures (exists j: nat :: LastWrite(commands, j, k, Run(commands).stored[k])) ||
            (Run(commands).stored[k] == UNWRITTEN && forall j: nat, dv :: !Writes(commands, j, k, dv))
  {
    hide Sources, Definitions, Touches;
    var n := |commands| - 1;
    if commands != [] {
      var front, c := commands[..n], commands[n];
      RunDefines(front);
      forall j: nat, dv | j < n ensures Writes(commands, j, k, dv) <==> Writes(front, j, k, dv) {
        assert commands[..j] == front[..j];
      }
      if c.Change? && c.source == k {
        assert k < |Run(front).stored| && Writes(commands, n, k, c.dv);
        assert LastWrite(commands, n, k, c.dv);
      } else {
        forall dv ensures !Writes(commands, n, k, dv) {}
        if k < |Run(front).stored| {
          StoredIsLast(front, k);
          if j: nat :| LastWrite(front, j, k, Run(front).stored[k]) {
            assert LastWrite(commands, j, k, Run(front).stored[k]);
          }
        } else {
          NeverWritten(front, k);
        }
      }
    }
  }

  ghost predicate LastWrite(commands: seq<Command>, j: nat, k: nat, dv: DataValue) {
    Writes(commands, j, k, dv) && forall i: nat, v | Writes(commands, i, k, v) :: i <= j
  }

  lemma NeverWritten(commands: seq<Command>, k: nat)
    requires k >= |Run(commands).stored|
    ensures forall j: nat, dv :: !Writes(commands, j, k, dv)
  {
    forall j: nat, dv ensures !Writes(commands, j, k, dv) {
      if j < |commands| {
        RunDefines(commands);
        SourcesGrow(commands, j);
      }
    }
  }

  lemma {:induction false} SourcesGrow(commands: seq<Command>, j: nat)
    requires j <= |commands|
    ensures Sources(Definitions(commands[..j])) <= Sources(Definitions(commands))
    decreases |commands| - j
  {
    if j < |commands| {
      var c := commands[j];
      assert commands[..j + 1] == commands[..j] + [c];
      DefinitionsNext(commands[..j], c);
      if c.Define? {
        AllFitNext(Definitions(commands[..j]), c.definition);
      } else {
        assert Definitions(commands[..j]) + [] == Definitions(commands[..j]);
      }
      SourcesGrow(commands, j + 1);
    } else {
      assert commands[..j] == commands;
    }
  }

  lemma {:induction false} ReachesInside(defs: seq<Definition>, i: nat, k: nat)
    requires Reaches(defs, i, k)
    ensures k < |defs|
    decreases |defs| - i
  {
    var j :| i < j < |defs| && Reads(defs, j, i) && (j == k || Reaches(defs, j, k));
    if j != k {
      ReachesInside(defs, j, k);
    }
  }

  /** No write so far has reached variable `k`. */
  ghost predicate Untouched(commands: seq<Command>, k: nat) {
    forall j: nat, source, dv | Writes(commands, j, source, dv) ::
      !Touches(Definitions(commands[..j]), source, k)
  }

  lemma UntouchedNext(commands: seq<Command>, c: Command, k: nat)
    ensures Untouched(commands + [c], k) <==>
      Untouched(commands, k) &&
      (c.Change? && c.source < Sources(Definitions(commands)) ==> !Touches(Definitions(commands), c.source, k))
  {
    hide Definitions, Sources, Touches;
    var all, n := commands + [c], |commands|;
    assert all[..n] == commands;
    forall j: nat, source, dv | j < n
      ensures Writes(all, j, source, dv) <==> Writes(commands, j, source, dv)
      ensures all[..j] == commands[..j]
    {
      assert all[..j] == commands[..j];
    }
    if c.Change? && c.source < Sources(Definitions(commands)) {
      assert Writes(all, n, c.source, c.dv);
    }
    if Untouched(all, k) {
      forall j: nat, source, dv | Writes(commands, j, source, dv)
        ensures !Touches(Definitions(commands[..j]), source, k)
      {
        assert Writes(all, j, source, dv);
      }
    }
  }

  /** A calculated variable has its initial value exactly until a write reaches it. */
  lemma {:induction false} WaitingMeans(commands: seq<Command>, k: nat)
    ensures k in Run(commands).waiting <==>
      var defs := Definitions(commands);
      k < |defs| && defs[k].Calculated? && defs[k].initialValue.Some? && Untouched(commands, k)
  {
    assert commands == [] ==> Definitions(commands) == [];
    hide Sources, Definitions, Touches, Untouched, Executed;
    if commands != [] {
      var front, c := commands[..|commands| - 1], commands[|commands| - 1];
      assert front + [c] == commands;
      WaitingMeans(front, k);
      ExecutedParts(Run(front), c);
      RunDefines(front);
      RunDefines(commands);
      UntouchedNext(front, c, k);
      if c.Define? && k == |Run(front).defs| {
        UntouchedBefore(front, k);
        UntouchedNow(front, k);
      }
    }
  }

  lemma UntouchedBefore(commands: seq<Command>, k: nat)
    requires k >= |Definitions(commands)|
    ensures Untouched(commands, k)
  {
    forall j: nat, source, dv | Writes(commands, j, source, dv)
      ensures !Touches(Definitions(commands[..j]), source, k)
    {
      FewerDefinitions(commands, j);
      NotTouched(Definitions(commands[..j]), source, k);
    }
  }

  lemma UntouchedNow(commands: seq<Command>, k: nat)
    requires k == |Run(commands).defs|
    ensures k !in Run(commands).waiting
  {
    WaitsInitially(commands);
  }

  lemma NotTouched(defs: seq<Definition>, source: nat, k: nat)
    requires k >= |defs|
    ensures !Touches(defs, source, k)
  {
    if i :| 0 <= i < |defs| && defs[i].Source? && Sources(defs[..i]) == source && Reaches(defs, i, k) {
      ReachesInside(defs, i, k);
    }
  }

  lemma {:induction false} FewerDefinitions(commands: seq<Command>, j: nat)
    requires j <= |commands|
    ensures |Definitions(commands[..j])| <= |Definitions(commands)|
    decreases |commands| - j
  {
    if j < |commands| {
      assert commands[..j + 1] == commands[..j] + [commands[j]];
      DefinitionsNext(commands[..j], commands[j]);
      FewerDefinitions(commands, j + 1);
    } else {
      assert commands[..j] == commands;
    }
  }

  /** Of the changes while the server runs, too, the last to a source counts. */
  lemma {:induction false} ChangesLast(w: World, changes: seq<(nat, DataValue)>, k: nat)
    requires k < |w.stored|
    ensures var after := ChangedAll(w, changes);
      && after.defs == w.defs && |after.stored| == |w.stored|
      && (forall j | 0 <= j < |changes| && changes[j].0 == k && (forall i | j < i < |changes| :: changes[i].0 != k) ::
            after.stored[k] == changes[j].1)
      && ((forall j | 0 <= j < |changes| :: changes[j].0 != k) ==> after.stored[k] == w.stored[k])
  {
    hide Touches;
    if changes != [] {
      var front := changes[..|changes| - 1];
      ChangesLast(w, front, k);
      assert forall j | 0 <= j < |front| :: front[j] == changes[j];
    }
  }

  /** A run never recovers from a formula that asks for an unknown name. */
  lemma {:induction false} NeverFits(commands: seq<Command>, i: nat)
    requires i <= |commands| && !AllFit(Run(commands[..i]).defs)
    ensures !AllFit(Run(commands).defs)
    decreases |commands| - i
  {
    if i < |commands| {
      var c := commands[i];
      assert commands[..i + 1] == commands[..i] + [c];
      RunNext(commands[..i], c);
      if c.Define? {
        AllFitNext(Run(commands[..i]).defs, c.definition);
      }
      NeverFits(commands, i + 1);
    } else {
      assert commands[..i] == commands;
    }
  }

  /** Only variables with an initial value can still have it. */
  predicate WaitsRightly(w: World) {
    forall k | k in w.waiting :: k < |w.defs| && w.defs[k].Calculated? && w.defs[k].initialValue.Some?
  }

  lemma DefinedRightly(w: World, d: Definition)
    requires WaitsRightly(w)
    ensures WaitsRightly(Defined(w, d))
  {
    assert forall k | 0 <= k < |w.defs| :: (w.defs + [d])[k] == w.defs[k];
  }

  lemma {:induction false} WaitsInitially(commands: seq<Command>)
    ensures WaitsRightly(Run(commands))
  {
    hide Touches;
    if commands != [] {
      var w, c := Run(commands[..|commands| - 1]), commands[|commands| - 1];
      WaitsInitially(commands[..|commands| - 1]);
      if c.Define? {
        DefinedRightly(w, c.definition);
      }
    }
  }
}
