/** Generating a patch and applying it: what comes out, and when that is what was asked for. */
module PatchProofs {
  import opened Bytes
  import opened Members
  import opened Numerals
  import opened Options
  import opened PatchEdits
  import opened PatchValues
  import opened Patching
  import opened Pointers
  import opened Sequences
  import opened Trees

  // ----- generated edits are relative to the path they are generated for

  lemma {:induction false} PrefixedConcat(front: CString, a: seq<Edit>, b: seq<Edit>)
    ensures Prefixed(front, a + b) == Prefixed(front, a) + Prefixed(front, b)
  {
    if a == [] {
      assert a + b == b;
    } else {
      PrefixedConcat(front, a[1..], b);
      assert (a + b)[1..] == a[1..] + b;
    }
  }

  lemma PrefixedCons(front: CString, e: Edit, es: seq<Edit>)
    ensures Prefixed(front, [e] + es) == [e.(path := front + e.path)] + Prefixed(front, es)
  {
    assert ([e] + es)[1..] == es;
  }

  lemma {:induction false} PrefixedTwice(front: CString, mid: CString, es: seq<Edit>)
    ensures Prefixed(front, Prefixed(mid, es)) == Prefixed(front + mid, es)
  {
    if es != [] {
      PrefixedTwice(front, mid, es[1..]);
      var p := es[0].path;
      assert front + (mid + p) == front + mid + p;
      assert Prefixed(mid, es)[1..] == Prefixed(mid, es[1..]);
    }
  }

  lemma UnderStep(path: CString, name: CString)
    ensures Under(path, name) == path + Step(name) == path + Under([], name)
    ensures Under([], name) == Step(name)
  {}

  lemma {:induction false} EditsPrefix(path: CString, from: Json, to: Json)
    ensures Edits(path, from, to) == Prefixed(path, Edits([], from, to))
    decreases Depth(from), 0
  {
    assert path + [] == path;
    if SameType(from, to) {
      match from
      case Array(xs) => ItemEditsPrefix(path, 0, xs, to.items);
      case Object(ms) =>
        SortFacts(ms);
        FieldEditsPrefix(path, SortMembers(ms), SortMembers(to.members));
      case _ =>
    }
  }

  /** The edits of a child, on the way from the root of its container. */
  lemma ChildEditsPrefix(path: CString, name: CString, from: Json, to: Json)
    requires Edits(path + Step(name), from, to) == Prefixed(path + Step(name), Edits([], from, to))
    requires Edits(Step(name), from, to) == Prefixed(Step(name), Edits([], from, to))
    ensures Edits(path + Step(name), from, to) == Prefixed(path, Edits(Step(name), from, to))
  {
    PrefixedTwice(path, Step(name), Edits([], from, to));
  }

  lemma {:induction false} ItemEditsPrefix(path: CString, c: nat, from: seq<Json>, to: seq<Json>)
    ensures ItemEdits(path, c, from, to) == Prefixed(path, ItemEdits([], c, from, to))
    decreases ItemsDepth(from), |from| + |to|
  {
    UnderStep(path, Digits(c));
    UnderStep([], Digits(c));
    UnderStep(path, [MINUS]);
    UnderStep([], [MINUS]);
    if from != [] && to != [] {
      EncodeIndex(c);
      var tok := Step(Digits(c));
      assert path + [SLASH] + Digits(c) == path + tok && [] + [SLASH] + Digits(c) == tok;
      EditsPrefix(path + tok, from[0], to[0]);
      EditsPrefix(tok, from[0], to[0]);
      ChildEditsPrefix(path, Digits(c), from[0], to[0]);
      ItemEditsPrefix(path, c + 1, from[1..], to[1..]);
      PrefixedConcat(path, Edits(tok, from[0], to[0]), ItemEdits([], c + 1, from[1..], to[1..]));
    } else if from != [] {
      ItemEditsPrefix(path, c + 1, from[1..], to);
      PrefixedCons(path, Edit(REMOVE, Under([], Digits(c)), None), ItemEdits([], c + 1, from[1..], to));
    } else if to != [] {
      ItemEditsPrefix(path, c + 1, from, to[1..]);
      PrefixedCons(path, Edit(ADD, Under([], [MINUS]), Some(to[0])), ItemEdits([], c + 1, from, to[1..]));
    }
  }

  lemma {:induction false} FieldEditsPrefix(path: CString, from: seq<Member>, to: seq<Member>)
    ensures FieldEdits(path, from, to) == Prefixed(path, FieldEdits([], from, to))
    decreases MembersDepth(from), |from| + |to|
  {
    if from != [] || to != [] {
      var diff := if from == [] then 1 else if to == [] then -1 else CaseCmp(from[0].name, to[0].name);
      var name := if diff <= 0 then from[0].name else to[0].name;
      UnderStep(path, name);
      UnderStep([], name);
      if diff == 0 {
        EditsPrefix(path + Step(name), from[0].value, to[0].value);
        EditsPrefix(Step(name), from[0].value, to[0].value);
        ChildEditsPrefix(path, name, from[0].value, to[0].value);
        FieldEditsPrefix(path, from[1..], to[1..]);
        PrefixedConcat(path, Edits(Step(name), from[0].value, to[0].value), FieldEdits([], from[1..], to[1..]));
      } else if diff < 0 {
        FieldEditsPrefix(path, from[1..], to);
        PrefixedCons(path, Edit(REMOVE, Under([], name), None), FieldEdits([], from[1..], to));
      } else {
        FieldEditsPrefix(path, from, to[1..]);
        PrefixedCons(path, Edit(ADD, Under([], name), Some(to[0].value)), FieldEdits([], from, to[1..]));
      }
    }
  }

  // ----- removals and additions at the end of an array

  lemma NoEdits(doc: Json, c: nat)
    ensures DoEdits(doc, ItemEdits([], c, [], [])) == Applied(doc, 0)
  {}

  lemma RemovalStep(xs: seq<Json>, c: nat, from: seq<Json>)
    requires from != []
    ensures DoEdits(Array(xs), ItemEdits([], c, from, [])) ==
      DoEdits(Array(Remove(xs, c)), ItemEdits([], c + 1, from[1..], []))
  {
    hide DoRemove, Encode, Digits;
    UnderStep([], Digits(c));
    RemoveItem(xs, c);
    assert ItemEdits([], c, from, [])[1..] == ItemEdits([], c + 1, from[1..], []);
  }

  lemma AdditionStep(xs: seq<Json>, c: nat, to: seq<Json>)
    requires to != []
    ensures DoEdits(Array(xs), ItemEdits([], c, [], to)) ==
      DoEdits(Array(xs + [to[0]]), ItemEdits([], c + 1, [], to[1..]))
  {
    hide DoAdd, Encode;
    KindsDiffer();
    UnderStep([], [MINUS]);
    AppendItem(xs, to[0]);
    assert ItemEdits([], c, [], to)[1..] == ItemEdits([], c + 1, [], to[1..]);
  }

  lemma {:induction false} RemovalsPastEnd(xs: seq<Json>, c: nat, from: seq<Json>)
    requires c >= |xs|
    ensures DoEdits(Array(xs), ItemEdits([], c, from, [])) == Applied(Array(xs), 0)
    decreases |from|
  {
    hide ItemEdits, DoEdits;
    NoEdits(Array(xs), c);
    if from != [] {
      RemovalStep(xs, c, from);
      RemovalsPastEnd(xs, c + 1, from[1..]);
    }
  }

  lemma RemoveFirst(front: seq<Json>, rest: seq<Json>)
    requires rest != []
    ensures Remove(front + rest, |front|) == front + rest[1..]
  {
    assert (front + rest)[..|front|] == front && (front + rest)[|front| + 1..] == rest[1..];
  }

  lemma SplitSecond<T>(front: seq<T>, rest: seq<T>)
    requires |rest| >= 2
    ensures front + rest[1..] == front + [rest[1]] + rest[2..]
  {}

  lemma SurvivorsSplit(front: seq<Json>, rest: seq<Json>)
    requires |rest| >= 2
    ensures front + Survivors(rest) == front + [rest[1]] + Survivors(rest[2..])
  {
    var tail := Survivors(rest[2..]);
    assert Survivors(rest) == [rest[1]] + tail;
    hide Survivors;
    Associative(front, [rest[1]], tail);
  }

  /** Removing at rising indices takes every other one of the items past the common length. */
  lemma {:induction false} RemovalsSkip(front: seq<Json>, rest: seq<Json>, from: seq<Json>)
    requires |rest| <= |from|
    ensures DoEdits(Array(front + rest), ItemEdits([], |front|, from, [])) == Applied(Array(front + Survivors(rest)), 0)
    decreases |from|
  {
    hide ItemEdits, DoEdits;
    if rest == [] {
      RemovalsPastEnd(front, |front|, from);
      assert front + rest == front && front + Survivors(rest) == front;
    } else {
      RemovalStep(front + rest, |front|, from);
      RemoveFirst(front, rest);
      if |rest| < 2 {
        RemovalsPastEnd(front, |front| + 1, from[1..]);
        assert front + rest[1..] == front && front + Survivors(rest) == front;
      } else {
        SplitSecond(front, rest);
        SurvivorsSplit(front, rest);
        RemovalsSkip(front + [rest[1]], rest[2..], from[1..]);
      }
    }
  }

  lemma {:induction false} AdditionsAppend(xs: seq<Json>, c: nat, to: seq<Json>)
    ensures DoEdits(Array(xs), ItemEdits([], c, [], to)) == Applied(Array(xs + to), 0)
    decreases |to|
  {
    hide ItemEdits, DoEdits;
    if to == [] {
      NoEdits(Array(xs), c);
      assert xs + to == xs;
    } else {
      AdditionStep(xs, c, to);
      AdditionsAppend(xs + [to[0]], c + 1, to[1..]);
      assert xs + [to[0]] + to[1..] == xs + to;
    }
  }

  lemma {:induction false} SurvivorsReordered(xs: seq<Json>, ys: seq<Json>)
    requires ItemsWellNamed(xs) && ItemsWellNamed(ys) && ItemsMeaning(xs, Exact) == ItemsMeaning(ys, Exact)
    ensures ItemsMeaning(Survivors(xs), IgnoreCase) == ItemsMeaning(Survivors(ys), IgnoreCase)
    ensures ItemsWellNamed(Survivors(xs))
    decreases |xs|
  {
    assert |xs| == |ItemsMeaning(xs, Exact)| == |ys|;
    if |xs| >= 2 {
      ItemsTail(xs, ys);
      ItemsTail(xs[1..], ys[1..]);
      assert xs[1..][1..] == xs[2..] && ys[1..][1..] == ys[2..];
      ReorderedEquivalent(xs[1], ys[1]);
      SurvivorsReordered(xs[2..], ys[2..]);
    }
  }

  lemma {:induction false} ItemsWellNamedConcat(a: seq<Json>, b: seq<Json>)
    ensures ItemsWellNamed(a + b) <==> ItemsWellNamed(a) && ItemsWellNamed(b)
  {
    if a == [] {
      assert a + b == b;
    } else {
      ItemsWellNamedConcat(a[1..], b);
      assert (a + b)[1..] == a[1..] + b;
    }
  }

  lemma {:induction false} ItemsMeaningConcat(a: seq<Json>, b: seq<Json>, n: Naming)
    ensures ItemsMeaning(a + b, n) == ItemsMeaning(a, n) + ItemsMeaning(b, n)
  {
    hide Meaning;
    if a == [] {
      assert a + b == b && ItemsMeaning(b, n) == [] + ItemsMeaning(b, n);
    } else {
      assert (a + b)[1..] == a[1..] + b && (a + b)[0] == a[0];
      ItemsMeaningConcat(a[1..], b, n);
      Associative([Meaning(a[0], n)], ItemsMeaning(a[1..], n), ItemsMeaning(b, n));
    }
  }

  // ----- the edits of one child, applied to its container

  ghost predicate Patches(r: Applied, from: Json, to: Json) {
    && r.Applied? && r.code == 0 && WellNamed(r.doc) && SameType(r.doc, to)
    && Meaning(r.doc, IgnoreCase) == PatchedValue(from, to)
  }

  /** Containers of one type: the code goes into them. Otherwise it compares or replaces the value. */
  predicate GoesInto(from: Json, to: Json) {
    (from.Array? && to.Array?) || (from.Object? && to.Object?)
  }

  lemma {:induction false} EditsDeep(from: Json, to: Json)
    requires GoesInto(from, to)
    ensures AllDeep(Edits([], from, to))
  {
    if from.Array? {
      ItemEditsDeep(0, from.items, to.items);
    } else {
      SortFacts(from.members);
      FieldEditsDeep(SortMembers(from.members), SortMembers(to.members));
    }
  }

  lemma {:induction false} DeepConcat(a: seq<Edit>, b: seq<Edit>)
    requires AllDeep(a) && AllDeep(b)
    ensures AllDeep(a + b)
  {
    if a == [] {
      assert a + b == b;
    } else {
      DeepConcat(a[1..], b);
      assert (a + b)[1..] == a[1..] + b;
    }
  }

  lemma {:induction false} PrefixedDeep(front: CString, es: seq<Edit>)
    requires front != [] && front[0] == SLASH
    ensures AllDeep(Prefixed(front, es))
  {
    if es != [] {
      PrefixedDeep(front, es[1..]);
      assert Prefixed(front, es)[1..] == Prefixed(front, es[1..]);
    }
  }

  lemma {:induction false} ItemEditsDeep(c: nat, from: seq<Json>, to: seq<Json>)
    ensures AllDeep(ItemEdits([], c, from, to))
    decreases |from| + |to|
  {
    if from != [] && to != [] {
      var tok := [] + [SLASH] + Digits(c);
      EditsPrefix(tok, from[0], to[0]);
      PrefixedDeep(tok, Edits([], from[0], to[0]));
      ItemEditsDeep(c + 1, from[1..], to[1..]);
      DeepConcat(Edits(tok, from[0], to[0]), ItemEdits([], c + 1, from[1..], to[1..]));
    } else if from != [] {
      ItemEditsDeep(c + 1, from[1..], to);
      DeepConcat([Edit(REMOVE, Under([], Digits(c)), None)], ItemEdits([], c + 1, from[1..], to));
    } else if to != [] {
      ItemEditsDeep(c + 1, from, to[1..]);
      DeepConcat([Edit(ADD, Under([], [MINUS]), Some(to[0]))], ItemEdits([], c + 1, from, to[1..]));
    }
  }

  lemma {:induction false} FieldEditsDeep(from: seq<Member>, to: seq<Member>)
    ensures AllDeep(FieldEdits([], from, to))
    decreases |from| + |to|
  {
    if from != [] || to != [] {
      var diff := if from == [] then 1 else if to == [] then -1 else CaseCmp(from[0].name, to[0].name);
      if diff == 0 {
        var tok := Under([], from[0].name);
        EditsPrefix(tok, from[0].value, to[0].value);
        PrefixedDeep(tok, Edits([], from[0].value, to[0].value));
        FieldEditsDeep(from[1..], to[1..]);
        DeepConcat(Edits(tok, from[0].value, to[0].value), FieldEdits([], from[1..], to[1..]));
      } else if diff < 0 {
        FieldEditsDeep(from[1..], to);
        DeepConcat([Edit(REMOVE, Under([], from[0].name), None)], FieldEdits([], from[1..], to));
      } else {
        FieldEditsDeep(from, to[1..]);
        DeepConcat([Edit(ADD, Under([], to[0].name), Some(to[0].value))], FieldEdits([], from, to[1..]));
      }
    }
  }

  /** What the edits of a child come to: going into it, nothing, or one replacement. */
  lemma ChildEdits(tok: CString, from: Json, to: Json)
    ensures GoesInto(from, to) ==> Edits(tok, from, to) == Prefixed(tok, Edits([], from, to))
    ensures !GoesInto(from, to) ==> Edits(tok, from, to) == if from == to then [] else [Edit(REPLACE, tok, Some(to))]
  {
    if GoesInto(from, to) {
      EditsPrefix(tok, from, to);
    }
  }

  lemma ScalarKept(c: Json, from: Json, to: Json)
    requires Reordered(c, from) && !GoesInto(from, to) && from == to
    ensures c == to && Meaning(c, IgnoreCase) == PatchedValue(from, to)
  {}

  /** The edits of one child, done on its container by going into the child. */
  lemma IntoChild(doc: Json, name: CString, i: nat, from: Json, to: Json) returns (v: Json)
    requires Leads(doc, name, i) && GoesInto(from, to)
    requires Patches(DoEdits(Child(doc, i), Edits([], from, to)), from, to)
    ensures DoEdits(doc, Edits(Step(name), from, to)) == Applied(SetChild(doc, i, v), 0)
    ensures WellNamed(v) && Meaning(v, IgnoreCase) == PatchedValue(from, to)
  {
    ChildEdits(Step(name), from, to);
    EditsDeep(from, to);
    LiftEdits(doc, name, i, Edits([], from, to));
    v := DoEdits(Child(doc, i), Edits([], from, to)).doc;
  }

  lemma OneEdit(doc: Json, e: Edit)
    requires DoEdit(doc, e).Applied? && DoEdit(doc, e).code == 0
    ensures DoEdits(doc, [e]) == DoEdit(doc, e)
  {
    assert [e][1..] == [];
  }

  /** The edits of one array item. */
  lemma ItemApplies(xs: seq<Json>, c: nat, from: Json, to: Json) returns (v: Json)
    requires c < |xs| && Reordered(xs[c], from) && WellNamed(xs[c]) && WellNamed(to)
    requires GoesInto(from, to) ==> Patches(DoEdits(xs[c], Edits([], from, to)), from, to)
    ensures DoEdits(Array(xs), Edits(Step(Digits(c)), from, to)) == Applied(Array(xs[c := v]), 0)
    ensures WellNamed(v) && Meaning(v, IgnoreCase) == PatchedValue(from, to)
  {
    hide DoEdit, Edits, Encode, Digits;
    var tok := Step(Digits(c));
    if GoesInto(from, to) {
      v := IntoChild(Array(xs), Digits(c), c, from, to);
    } else {
      ChildEdits(tok, from, to);
      v := to;
      if from == to {
        ScalarKept(xs[c], from, to);
        assert xs[c := v] == xs;
      } else {
        ReplaceItemEdit(xs, c, to);
      }
    }
  }

  lemma ReplaceItemEdit(xs: seq<Json>, c: nat, v: Json)
    requires c < |xs|
    ensures DoEdits(Array(xs), [Edit(REPLACE, Step(Digits(c)), Some(v))]) == Applied(Array(xs[c := v]), 0)
  {
    hide DoReplace, DoRemove, DoAdd;
    KindsDiffer();
    ReplaceItem(xs, c, v);
    OneEdit(Array(xs), Edit(REPLACE, Step(Digits(c)), Some(v)));
  }
}
