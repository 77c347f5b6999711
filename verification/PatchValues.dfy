/** The value that applying a generated patch leaves, and when it is the wanted one. */
module PatchValues {
  import opened Bytes
  import Comparing
  import opened Members
  import opened Trees

  /** The items that survive the removals past the common length: removing shifts the rest down each time. */
  function Survivors(xs: seq<Json>): seq<Json> {
    if |xs| < 2 then [] else [xs[1]] + Survivors(xs[2..])
  }

  function PatchedValue(from: Json, to: Json): Value
    decreases (to)
  {
    if from.Array? && to.Array? then VArray(PatchedItems(from.items, to.items))
    else if from.Object? && to.Object? then VObject(PatchedFields(from.members, to.members))
    else Meaning(to, IgnoreCase)
  }

  function PatchedItems(from: seq<Json>, to: seq<Json>): seq<Value>
    decreases (to)
  {
    if to == [] then ItemsMeaning(Survivors(from), IgnoreCase)
    else if from == [] then ItemsMeaning(to, IgnoreCase)
    else [PatchedValue(from[0], to[0])] + PatchedItems(from[1..], to[1..])
  }

  function PatchedField(from: seq<Member>, to: Member): Value
    decreases (to)
  {
    match Lookup(from, Folded(to))
    case Some(v) => PatchedValue(v, to.value)
    case None => Meaning(to.value, IgnoreCase)
  }

  function PatchedFields(from: seq<Member>, to: seq<Member>): map<CString, Value>
    decreases (to)
  {
    if to == [] then map[]
    else PatchedFields(from, to[1..])[Folded(to[0]) := PatchedField(from, to[0])]
  }

  /** No array compared on the way is more than one item longer than the array it is to become. */
  predicate ShrinksByAtMostOne(from: Json, to: Json)
    decreases (to)
  {
    if from.Array? && to.Array? then ItemsShrinkByAtMostOne(from.items, to.items)
    else if from.Object? && to.Object? then FieldsShrinkByAtMostOne(from.members, to.members)
    else true
  }

  predicate ItemsShrinkByAtMostOne(from: seq<Json>, to: seq<Json>)
    decreases (to)
  {
    if to == [] then |from| <= 1
    else if from == [] then true
    else ShrinksByAtMostOne(from[0], to[0]) && ItemsShrinkByAtMostOne(from[1..], to[1..])
  }

  predicate FieldsShrinkByAtMostOne(from: seq<Member>, to: seq<Member>)
    decreases (to)
  {
    if to == [] then true
    else
      && (match Lookup(from, Folded(to[0]))
          case Some(v) => ShrinksByAtMostOne(v, to[0].value)
          case None => true)
      && FieldsShrinkByAtMostOne(from, to[1..])
  }

  /** The patched value is the wanted one exactly when no compared array shrinks by more than one. */
  lemma {:induction false} PatchedIsWanted(from: Json, to: Json)
    requires WellNamed(to)
    ensures PatchedValue(from, to) == Meaning(to, IgnoreCase) <==> ShrinksByAtMostOne(from, to)
    decreases (to)
  {
    if from.Array? && to.Array? {
      PatchedItemsWanted(from.items, to.items);
    } else if from.Object? && to.Object? {
      PatchedFieldsWanted(from.members, to.members);
    }
  }

  lemma {:induction false} PatchedItemsWanted(from: seq<Json>, to: seq<Json>)
    requires ItemsWellNamed(to)
    ensures PatchedItems(from, to) == ItemsMeaning(to, IgnoreCase) <==> ItemsShrinkByAtMostOne(from, to)
    decreases (to)
  {
    if from != [] && to != [] {
      PatchedIsWanted(from[0], to[0]);
      PatchedItemsWanted(from[1..], to[1..]);
      var p, q := PatchedItems(from, to), ItemsMeaning(to, IgnoreCase);
      assert p[0] == PatchedValue(from[0], to[0]) && p[1..] == PatchedItems(from[1..], to[1..]);
      assert q[0] == Meaning(to[0], IgnoreCase) && q[1..] == ItemsMeaning(to[1..], IgnoreCase);
      assert p == [p[0]] + p[1..] && q == [q[0]] + q[1..];
    } else if |from| > 1 {
      assert |PatchedItems(from, to)| > 0;
    }
  }

  lemma {:induction false} PatchedFieldNames(from: seq<Member>, to: seq<Member>, k: CString)
    ensures k in PatchedFields(from, to) <==> k in FieldsMeaning(to, IgnoreCase)
  {
    if to != [] {
      PatchedFieldNames(from, to[1..], k);
    }
  }

  lemma {:induction false} PatchedFieldsWanted(from: seq<Member>, to: seq<Member>)
    requires AllWellNamed(to)
    ensures PatchedFields(from, to) == FieldsMeaning(to, IgnoreCase) <==> FieldsShrinkByAtMostOne(from, to)
    decreases (to)
  {
    if to != [] {
      var k, v := Folded(to[0]), Lookup(from, Folded(to[0]));
      assert to[0] in to && AllWellNamed(to[1..]);
      PatchedFieldsWanted(from, to[1..]);
      if v.Some? {
        PatchedIsWanted(v.value, to[0].value);
      }
      FieldNames(to[1..], IgnoreCase);
      assert forall m | m in to[1..] :: Folded(m) != k;
      PatchedFieldNames(from, to[1..], k);
      Comparing.InsertEqual(PatchedFields(from, to[1..]), FieldsMeaning(to[1..], IgnoreCase), k,
                            PatchedField(from, to[0]), Meaning(to[0].value, IgnoreCase));
    }
  }

  /** The value under each name of the wanted object. */
  lemma {:induction false} PatchedFieldAt(from: seq<Member>, to: seq<Member>, k: CString)
    ensures k in PatchedFields(from, to) <==> Lookup(to, k).Some?
    ensures Lookup(to, k).Some? ==>
      PatchedFields(from, to)[k] ==
      (match Lookup(from, k)
       case Some(v) => PatchedValue(v, Lookup(to, k).value)
       case None => Meaning(Lookup(to, k).value, IgnoreCase))
  {
    if to != [] {
      PatchedFieldAt(from, to[1..], k);
    }
  }
}
