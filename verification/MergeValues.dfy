/** JSON Merge Patch on values: the function of RFC 7396 section 2, and the patch from one value to another. */
module MergeValues {
  import opened Bytes
  import opened Options
  import opened Trees

  function Fields(v: Option<Value>): map<CString, Value> {
    if v.Some? && v.value.VObject? then v.value.fields else map[]
  }

  function Find(f: map<CString, Value>, k: CString): Option<Value> {
    if k in f then Some(f[k]) else None
  }

  /** The function of RFC 7396 section 2; a missing target is `None`. */
  function MergeValue(target: Option<Value>, patch: Value): Value
    decreases patch
  {
    if !patch.VObject? then patch
    else
      var t, p := Fields(target), patch.fields;
      VObject(map k | k in t.Keys + p.Keys && !(k in p && p[k].VNull?) ::
        if k in p then MergeValue(Find(t, k), p[k]) else t[k])
  }

  /** No object below, reached through objects alone, has a null member. */
  ghost predicate NullFree(v: Value) {
    v.VObject? ==> forall k | k in v.fields :: !v.fields[k].VNull? && NullFree(v.fields[k])
  }

  /** Merging into nothing, or into anything but an object, gives the patch exactly when it is free of nulls. */
  lemma {:induction false} MergeIntoNothing(target: Option<Value>, patch: Value)
    requires target.Some? ==> !target.value.VObject?
    ensures MergeValue(target, patch) == patch <==> NullFree(patch)
    decreases patch
  {
    if patch.VObject? {
      var p, r := patch.fields, MergeValue(target, patch).fields;
      forall k | k in p ensures k in r && r[k] == p[k] <==> !p[k].VNull? && NullFree(p[k]) {
        MergeIntoNothing(None, p[k]);
      }
      if NullFree(patch) {
        assert r == p;
      } else {
        var k :| k in p && !(!p[k].VNull? && NullFree(p[k]));
        assert !(k in r && r[k] == p[k]);
      }
    }
  }

  /** What a generated merge patch says about one name. */
  function MergeStep(from: Value, to: Value, k: CString): Option<Value>
    requires from.VObject? && to.VObject?
    decreases (to), 0
  {
    var f, t := from.fields, to.fields;
    if k !in t then (if k in f then Some(VNull) else None)
    else if k !in f then Some(t[k])
    else if f[k] == t[k] then None
    else MergeBetween(f[k], t[k])
  }

  /** The patch from one value to another: None when both are objects and there is nothing to say. */
  function MergeBetween(from: Value, to: Value): Option<Value>
    decreases (to), 1
  {
    if !from.VObject? || !to.VObject? then Some(to)
    else
      var p := map k | k in from.fields.Keys + to.fields.Keys && MergeStep(from, to, k).Some? ::
        MergeStep(from, to, k).value;
      if p == map[] then None else Some(VObject(p))
  }

  /** A null member of the wanted object is already there, everywhere the patch goes. */
  ghost predicate NoNewNull(from: Value, to: Value)
    decreases (to), 1
  {
    if from.VObject? && to.VObject? then forall k | k in to.fields :: FieldRestored(from, to, k) else NullFree(to)
  }

  ghost predicate FieldRestored(from: Value, to: Value, k: CString)
    requires from.VObject? && to.VObject?
    decreases (to), 0
  {
    k in to.fields ==>
      || (k in from.fields && from.fields[k] == to.fields[k])
      || (&& !to.fields[k].VNull?
          && if k in from.fields then NoNewNull(from.fields[k], to.fields[k]) else NullFree(to.fields[k]))
  }

  /** No patch is generated exactly when both values are equal objects. */
  lemma {:induction false} NoMergeNeeded(from: Value, to: Value)
    ensures MergeBetween(from, to).None? <==> from.VObject? && to.VObject? && from == to
    decreases (to)
  {
    if from.VObject? && to.VObject? {
      var f, t := from.fields, to.fields;
      forall k | k in f.Keys + t.Keys
        ensures MergeStep(from, to, k).None? <==> k in f && k in t && f[k] == t[k]
      {
        if k in f && k in t && f[k] != t[k] {
          NoMergeNeeded(f[k], t[k]);
        }
      }
      var p := map k | k in f.Keys + t.Keys && MergeStep(from, to, k).Some? :: MergeStep(from, to, k).value;
      if p == map[] {
        forall k | k in f.Keys + t.Keys ensures MergeStep(from, to, k).None? {
          assert k !in p;
        }
        assert f == t;
      } else if f == t {
        var k :| k in p;
      }
    }
  }

  /** The result of merging the generated patch, name by name. */
  lemma MergedField(from: Value, to: Value, k: CString)
    requires from.VObject? && to.VObject? && MergeBetween(from, to).Some?
    ensures var r := MergeValue(Some(from), MergeBetween(from, to).value);
      r.VObject? && Find(r.fields, k) ==
      match MergeStep(from, to, k)
      case None => Find(from.fields, k)
      case Some(v) => if v.VNull? then None else Some(MergeValue(Find(from.fields, k), v))
  {
    var p := MergeBetween(from, to).value.fields;
    assert k in p <==> MergeStep(from, to, k).Some?;
  }

  /** Merging the generated patch gives the wanted value exactly when the wanted value has no new null. */
  lemma {:induction false} MergeRestores(from: Value, to: Value)
    requires MergeBetween(from, to).Some?
    ensures MergeValue(Some(from), MergeBetween(from, to).value) == to <==> NoNewNull(from, to)
    decreases (to)
  {
    var patch := MergeBetween(from, to).value;
    if from.VObject? && to.VObject? {
      var f, t, r := from.fields, to.fields, MergeValue(Some(from), patch).fields;
      forall k ensures Find(r, k) == Find(t, k) <==> FieldRestored(from, to, k) {
        MergedField(from, to, k);
        if k in t && k in f && f[k] != t[k] {
          NoMergeNeeded(f[k], t[k]);
          MergeRestores(f[k], t[k]);
        } else if k in t && k !in f {
          MergeIntoNothing(None, t[k]);
        }
      }
      SameFields(r, t);
    } else if to.VObject? {
      MergeIntoNothing(Some(from), to);
    }
  }

  lemma SameFields(r: map<CString, Value>, t: map<CString, Value>)
    ensures r == t <==> forall k :: Find(r, k) == Find(t, k)
  {
    if forall k :: Find(r, k) == Find(t, k) {
      forall k ensures (k in r <==> k in t) && (k in r ==> r[k] == t[k]) {
        assert Find(r, k) == Find(t, k);
      }
    }
  }
}
