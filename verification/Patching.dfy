/** Applying and generating JSON Patch (RFC 6902) documents. */
module Patching {
  import opened Bytes
  import opened Comparing
  import opened Members
  import opened Numerals
  import opened Options
  import opened Pointers
  import opened Trees

  const ADD: CString := [97, 100, 100]
  const REMOVE: CString := [114, 101, 109, 111, 118, 101]
  const REPLACE: CString := [114, 101, 112, 108, 97, 99, 101]
  const MOVE: CString := [109, 111, 118, 101]
  const COPY: CString := [99, 111, 112, 121]
  const TEST: CString := [116, 101, 115, 116]
  const OP: CString := [111, 112]
  const PATH: CString := [112, 97, 116, 104]
  const VALUE: CString := [118, 97, 108, 117, 101]
  const FROM: CString := [102, 114, 111, 109]

  // ----- applying one patch

  /** What a call leaves; `Undefined` stands for a dereferenced NULL or a step over a terminator. */
  datatype Applied = Applied(doc: Json, code: int) | Undefined

  datatype Detached = Detached(item: Option<Json>, doc: Json) | Crash

  /** The path up to its last slash and the decoded name after it; None where the code has undefined behaviour. */
  function SplitPath(path: CString): Option<(CString, CString)> {
    var k := LastSlash(path);
    if k < 0 then None
    else match DecodeName(path[k + 1..])
      case None => None
      case Some(name) => Some((path[..k], name))
  }

  function LastSlash(path: CString): (k: int)
    ensures -1 <= k < |path|
    ensures k >= 0 ==> path[k] == SLASH
    ensures forall m :: k < m < |path| ==> path[m] != SLASH
  {
    if path == [] then -1
    else if path[|path| - 1] == SLASH then |path| - 1
    else LastSlash(path[..|path| - 1])
  }

  /** `cJSONUtils_PatchDetach`. */
  function PatchDetach(doc: Json, path: CString): Detached {
    match SplitPath(path)
    case None => Crash
    case Some((up, name)) =>
      match GetPointer(doc, up)
      case None => Detached(None, doc)
      case Some(p) =>
        match Subtree(doc, p)
        case Array(xs) =>
          var i := Steps(Atoi(name));
          if i < |xs| then Detached(Some(xs[i]), SetSubtree(doc, p, Array(Remove(xs, i)))) else Detached(None, doc)
        case Object(ms) =>
          var i := FindName(ms, name);
          if i < |ms| then Detached(Some(ms[i].value), SetSubtree(doc, p, Object(Remove(ms, i))))
          else Detached(None, doc)
        case _ => Detached(None, doc)
  }

  /** The parent with `v` added under `name`. */
  function AddChild(parent: Json, name: CString, v: Json): Json {
    match parent
    case Array(xs) => Array(if name == [MINUS] then xs + [v] else Insert(xs, Steps(Atoi(name)), v))
    case Object(ms) => Object(Without(ms, name) + [Member(name, v)])
    case _ => parent
  }

  /** The last part of `cJSONUtils_ApplyPatch`: adds the value at the path. */
  function DoAdd(doc: Json, path: CString, v: Json): Applied {
    match SplitPath(path)
    case None => Undefined
    case Some((up, name)) =>
      match GetPointer(doc, up)
      case None => Applied(doc, 9)
      case Some(p) => Applied(SetSubtree(doc, p, AddChild(Subtree(doc, p), name, v)), 0)
  }

  function DoRemove(doc: Json, path: CString): Applied {
    match PatchDetach(doc, path)
    case Crash => Undefined
    case Detached(_, doc') => Applied(doc', 0)
  }

  function DoReplace(doc: Json, path: CString, v: Option<Json>): Applied {
    match DoRemove(doc, path)
    case Undefined => Undefined
    case Applied(doc', _) => if v.None? then Applied(doc', 7) else DoAdd(doc', path, v.value)
  }

  function DoMove(doc: Json, path: CString, from: Option<Json>): Applied {
    if from.None? then Applied(doc, 4)
    else if !from.value.String? then Undefined
    else match PatchDetach(doc, from.value.s)
      case Crash => Undefined
      case Detached(None, doc') => Applied(doc', 5)
      case Detached(Some(v), doc') => DoAdd(doc', path, v)
  }

  function DoCopy(doc: Json, path: CString, from: Option<Json>): Applied {
    if from.None? then Applied(doc, 4)
    else if !from.value.String? then Undefined
    else match GetPointer(doc, from.value.s)
      case None => Applied(doc, 5)
      case Some(p) => DoAdd(doc, path, Subtree(doc, p))
  }

  /** Comparing sorts the part of the document that is tested. */
  function DoTest(doc: Json, path: CString, v: Option<Json>): Applied {
    match GetPointer(doc, path)
    case None => Undefined
    case Some(p) =>
      if v.None? then Undefined
      else
        var r := Compare(Subtree(doc, p), v.value);
        Applied(SetSubtree(doc, p, r.a), r.code)
  }

  /** `cJSONUtils_ApplyPatch`. */
  function ApplyPatch(doc: Json, patch: Json): Applied {
    var op, path, v, from := GetItem(patch, OP), GetItem(patch, PATH), GetItem(patch, VALUE), GetItem(patch, FROM);
    if op.None? || path.None? then Applied(doc, 2)
    else if !op.value.String? then Undefined
    else if op.value.s !in {ADD, REMOVE, REPLACE, MOVE, COPY, TEST} then Applied(doc, 3)
    else if !path.value.String? then Undefined
    else
      var kind, at := op.value.s, path.value.s;
      if kind == TEST then DoTest(doc, at, v)
      else if kind == REMOVE then DoRemove(doc, at)
      else if kind == REPLACE then DoReplace(doc, at, v)
      else if kind == MOVE then DoMove(doc, at, from)
      else if kind == COPY then DoCopy(doc, at, from)
      else if v.None? then Applied(doc, 7)
      else DoAdd(doc, at, v.value)
  }

  /** Applies patches in turn; the first code other than 0 ends the run. */
  function ApplyEach(doc: Json, patches: seq<Json>): Applied
    decreases |patches|
  {
    if patches == [] then Applied(doc, 0)
    else match ApplyPatch(doc, patches[0])
      case Undefined => Undefined
      case Applied(doc', code) => if code != 0 then Applied(doc', code) else ApplyEach(doc', patches[1..])
  }

  /** `cJSONUtils_ApplyPatches`. */
  function ApplyPatches(doc: Json, patches: Json): Applied {
    if !patches.Array? then Applied(doc, 1) else ApplyEach(doc, patches.items)
  }

  // ----- generating patches

  datatype Edit = Edit(kind: CString, path: CString, value: Option<Json>)

  /** `cJSONUtils_GeneratePatch` without a suffix. */
  function AsPatch(e: Edit): Json {
    Object([Member(OP, String(e.kind)), Member(PATH, String(e.path))] +
           match e.value
           case Some(v) => [Member(VALUE, v)]
           case None => [])
  }

  function AsPatches(es: seq<Edit>): seq<Json> {
    if es == [] then [] else [AsPatch(es[0])] + AsPatches(es[1..])
  }

  function Under(path: CString, name: CString): CString {
    path + [SLASH] + Encode(name)
  }

  /** `cJSONUtils_CompareToPatch`. */
  function Edits(path: CString, from: Json, to: Json): seq<Edit>
    decreases Depth(from), 0
  {
    if !SameType(from, to) then [Edit(REPLACE, path, Some(to))]
    else match from
      case Number(d) => if d != to.d then [Edit(REPLACE, path, Some(to))] else []
      case String(s) => if s != to.s then [Edit(REPLACE, path, Some(to))] else []
      case Array(xs) => ItemEdits(path, 0, xs, to.items)
      case Object(ms) =>
        SortFacts(ms);
        FieldEdits(path, SortMembers(ms), SortMembers(to.members))
      case _ => []
  }

  function ItemEdits(path: CString, c: nat, from: seq<Json>, to: seq<Json>): seq<Edit>
    decreases ItemsDepth(from), |from| + |to|
  {
    if from == [] && to == [] then []
    else if to == [] then
      [Edit(REMOVE, Under(path, Digits(c)), None)] + ItemEdits(path, c + 1, from[1..], to)
    else if from == [] then
      [Edit(ADD, Under(path, [MINUS]), Some(to[0]))] + ItemEdits(path, c + 1, from, to[1..])
    else
      Edits(path + [SLASH] + Digits(c), from[0], to[0]) + ItemEdits(path, c + 1, from[1..], to[1..])
  }

  function FieldEdits(path: CString, from: seq<Member>, to: seq<Member>): seq<Edit>
    decreases MembersDepth(from), |from| + |to|
  {
    if from == [] && to == [] then []
    else
      var diff := if from == [] then 1 else if to == [] then -1 else CaseCmp(from[0].name, to[0].name);
      if diff == 0 then
        Edits(Under(path, from[0].name), from[0].value, to[0].value) + FieldEdits(path, from[1..], to[1..])
      else if diff < 0 then
        [Edit(REMOVE, Under(path, from[0].name), None)] + FieldEdits(path, from[1..], to)
      else
        [Edit(ADD, Under(path, to[0].name), Some(to[0].value))] + FieldEdits(path, from, to[1..])
  }

  /** `cJSONUtils_GeneratePatches`. */
  function GeneratePatches(from: Json, to: Json): Json {
    Array(AsPatches(Edits([], from, to)))
  }
}
