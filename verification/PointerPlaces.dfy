/** Where a JSON Pointer leads, over the bytes of its tokens as in RFC 6901, and that following it goes there. */
module PointerPlaces {
  import opened Bytes
  import opened Decimals
  import opened Numerals
  import opened Options
  import opened Pointers
  import opened Trees

  /** The token spells the name: `~0` for a tilde, `~1` for a slash, every other byte but these for itself. */
  predicate Spells(token: CString, name: CString) {
    if token == [] then name == []
    else if name == [] then false
    else if token[0] == 126 then
      |token| >= 2 && token[1] == (if name[0] == 126 then 48 else 49) && (name[0] == 126 || name[0] == 47)
      && Spells(token[2..], name[1..])
    else token[0] == name[0] && Spells(token[1..], name[1..])
  }

  /** The token spells some form of the name. */
  ghost predicate Names(token: CString, name: CString) {
    exists s: CString :: Spells(token, s) && SameName(s, name)
  }

  /** The token leads to child `i`: the index it spells in digits, if any, or the first member of the name it spells. */
  ghost predicate LeadsTo(t: Json, token: CString, i: nat) {
    match t
    case Array(xs) => AllDigits(token) && i == Weight(token) < |xs|
    case Object(ms) => i < |ms| && Names(token, ms[i].name) && forall j | 0 <= j < i :: !Names(token, ms[j].name)
    case _ => false
  }

  /** A slash, then a token, then nothing or the next slash at `k`. */
  predicate TokenEnds(path: CString, k: nat) {
    0 < k <= |path| && path[0] == 47 && (forall j | 0 < j < k :: path[j] != 47) && (k == |path| || path[k] == 47)
  }

  /** The path leads from `t` to the node at `p`; without a slash in front it stays where it is. */
  ghost predicate Leads(t: Json, path: CString, p: Position)
    decreases |path|
  {
    if path == [] || path[0] != 47 then p == []
    else
      && p != [] && p[0] < Children(t)
      && exists k: nat :: TokenEnds(path, k) && LeadsTo(t, path[1..k], p[0]) && Leads(Child(t, p[0]), path[k..], p[1..])
  }

  // ----- names

  lemma {:induction false} SpellsEncode(name: CString)
    ensures Spells(Encode(name), name)
  {
    if name != [] {
      SpellsEncode(name[1..]);
      var e := Encode(name);
      assert e[if e[0] == TILDE then 2 else 1..] == Encode(name[1..]);
    }
  }

  lemma SameNameStep(a: CString, b: CString)
    requires a != [] && b != []
    ensures SameName(a, b) <==> SameLetter(a[0], b[0]) && SameName(a[1..], b[1..])
  {
    if SameLetter(a[0], b[0]) && SameName(a[1..], b[1..]) {
      forall i | 0 <= i < |a| ensures SameLetter(a[i], b[i]) {
        assert i > 0 ==> a[i] == a[1..][i - 1] && b[i] == b[1..][i - 1];
      }
    }
    if SameName(a, b) {
      forall i | 0 <= i < |a| - 1 ensures SameLetter(a[1..][i], b[1..][i]) {
        assert SameLetter(a[i + 1], b[i + 1]);
      }
    }
  }

  /** A token is compared with a name as it stands, up to the slash that follows. */
  lemma {:induction false} MatchNames(a: CString, token: CString, post: CString)
    requires 47 !in token && AtToken(post)
    ensures NameMatches(a, token + post) <==> Names(token, a)
    decreases |token|
  {
    hide SameName, SameLetter;
    var e := token + post;
    if token == [] {
      assert e == post;
      NoToken(a);
    } else {
      assert e[0] == token[0] && token[0] in token;
      var k := if token[0] == TILDE then 2 else 1;
      if a != [] && k <= |token| {
        assert e[k..] == token[k..] + post;
        assert forall c | c in token[k..] :: c in token;
        MatchNames(a[1..], token[k..], post);
        NamesStep(a, token);
        assert k == 2 ==> e[1] == token[1];
        LowerDecides(e[0], a[0]);
        OwnLetter(a[0]);
      } else {
        NamesShort(a, token);
        if a != [] {
          assert AtToken(post) && (post != [] ==> At(e, 1) == SLASH);
        }
      }
    }
  }

  /** A tilde and a slash have no other case. */
  lemma OwnLetter(c: byte)
    ensures (SameLetter(126, c) <==> c == 126) && (SameLetter(47, c) <==> c == 47)
  {}

  lemma NoToken(a: CString)
    ensures Names([], a) <==> a == []
  {
    if a == [] {
      assert Spells([], []) && SameName([], a);
    }
  }

  /** Without enough of either, nothing is spelled. */
  lemma NamesShort(a: CString, token: CString)
    requires token != [] && (a == [] || (token[0] == 126 && |token| < 2))
    ensures !Names(token, a)
  {
    forall s: CString | Spells(token, s)
      ensures !SameName(s, a)
    {}
  }

  /** What the first unit of a token spells. */
  function UnitOf(token: CString): Option<Char>
    requires token != []
  {
    if token[0] != 126 then Some(token[0])
    else if |token| >= 2 && token[1] == 48 then Some(126)
    else if |token| >= 2 && token[1] == 49 then Some(47)
    else None
  }

  lemma NamesStep(a: CString, token: CString)
    requires a != [] && token != [] && (token[0] == 126 ==> |token| >= 2)
    ensures Names(token, a) <==>
      UnitOf(token).Some? && SameLetter(UnitOf(token).value, a[0]) &&
      Names(token[if token[0] == 126 then 2 else 1..], a[1..])
  {
    hide SameName, SameLetter;
    var rest := token[if token[0] == 126 then 2 else 1..];
    if s: CString :| Spells(token, s) && SameName(s, a) {
      assert SameName(s, a) ==> s != [] by {
        EqualLengths(s, a);
      }
      SameNameStep(s, a);
      assert Spells(rest, s[1..]);
    }
    if UnitOf(token).Some? && SameLetter(UnitOf(token).value, a[0]) && Names(rest, a[1..]) {
      var r: CString :| Spells(rest, r) && SameName(r, a[1..]);
      var s: CString := [UnitOf(token).value] + r;
      assert s[1..] == r;
      SameNameStep(s, a);
      assert Spells(token, s);
    }
  }

  lemma EqualLengths(a: CString, b: CString)
    requires SameName(a, b)
    ensures |a| == |b|
  {}

  // ----- following a path

  lemma {:induction false} TokenOf(path: CString) returns (k: nat)
    requires path != [] && path[0] == 47
    ensures Parts(path, k)
  {
    k := 1;
    while k < |path| && path[k] != 47
      invariant 1 <= k <= |path| && forall j | 0 < j < k :: path[j] != 47
    {
      k := k + 1;
    }
    AfterTokenSkips(path[1..k], path[k..]);
  }

  lemma TokenOnce(path: CString, k: nat, l: nat)
    requires TokenEnds(path, k) && TokenEnds(path, l)
    ensures k == l
  {}

  /** One turn of the loop: the child that the first token leads to, and what is left of the path. */
  function Next(t: Json, path: CString): Option<(nat, CString)>
    requires path != []
  {
    match t
    case Array(xs) =>
      var (which, rest) := ReadDigits(path[1..], 0);
      if !AtToken(rest) || which >= |xs| then None else Some((which, rest))
    case Object(ms) =>
      var i := FindMatch(ms, path[1..]);
      if i == |ms| then None else Some((i, AfterToken(path[1..])))
    case _ => None
  }

  /** The path is a slash, a token without one, and what follows. */
  predicate Parts(path: CString, k: nat) {
    && TokenEnds(path, k) && 47 !in path[1..k] && path[1..] == path[1..k] + path[k..]
    && AtToken(path[k..]) && AfterToken(path[1..]) == path[k..]
  }

  lemma NextItem(xs: seq<Json>, path: CString, k: nat, i: nat)
    requires Parts(path, k)
    ensures LeadsTo(Array(xs), path[1..k], i) <==> Next(Array(xs), path) == Some((i, path[k..]))
    ensures Next(Array(xs), path).Some? ==> Next(Array(xs), path).value.1 == path[k..]
  {
    var token, post := path[1..k], path[k..];
    if AllDigits(token) {
      ReadsOnto(token, 0, post);
      OntoIsWeight(token);
    } else {
      StopsAtOther(token, 0, post);
    }
  }

  lemma NextMember(ms: seq<Member>, path: CString, k: nat, i: nat)
    requires Parts(path, k)
    ensures LeadsTo(Object(ms), path[1..k], i) <==> Next(Object(ms), path) == Some((i, path[k..]))
  {
    hide Names, NameMatches;
    forall j | 0 <= j < |ms|
      ensures NameMatches(ms[j].name, path[1..]) <==> Names(path[1..k], ms[j].name)
    {
      MatchNames(ms[j].name, path[1..k], path[k..]);
    }
  }

  lemma NextLeads(t: Json, path: CString, k: nat, i: nat)
    requires Parts(path, k)
    ensures LeadsTo(t, path[1..k], i) <==> Next(t, path) == Some((i, path[k..]))
    ensures Next(t, path).Some? ==> Next(t, path).value.1 == path[k..]
  {
    hide Parts;
    match t
    case Array(xs) => NextItem(xs, path, k, i);
    case Object(ms) =>
      NextMember(ms, path, k, i);
      assert Parts(path, k) ==> AfterToken(path[1..]) == path[k..] by {
        PartsRest(path, k);
      }
    case _ =>
  }

  lemma PartsRest(path: CString, k: nat)
    requires Parts(path, k)
    ensures TokenEnds(path, k) && AfterToken(path[1..]) == path[k..] && |path[k..]| < |path|
  {}

  lemma FollowNext(t: Json, path: CString)
    requires path != [] && path[0] == 47
    ensures var n := Next(t, path);
      if n.None? then GetPointer(t, path).None?
      else n.value.0 < Children(t) &&
           GetPointer(t, path) == Below(n.value.0, GetPointer(Child(t, n.value.0), n.value.1))
  {}

  /** Following a pointer ends where it leads, and nowhere when it leads nowhere. */
  lemma {:induction false} GetPointerLeads(t: Json, path: CString, p: Position)
    ensures GetPointer(t, path) == Some(p) <==> Leads(t, path, p)
    decreases |path|
  {
    if path != [] && path[0] == 47 {
      var k := TokenOf(path);
      hide GetPointer, Next, LeadsTo, Parts, TokenEnds;
      PartsRest(path, k);
      FollowNext(t, path);
      if p != [] && p[0] < Children(t) {
        NextLeads(t, path, k, p[0]);
        GetPointerLeads(Child(t, p[0]), path[k..], p[1..]);
        forall l: nat | TokenEnds(path, l) ensures l == k {
          TokenOnce(path, l, k);
        }
        assert p == [p[0]] + p[1..];
      }
      NextLeads(t, path, k, 0);
    }
  }
}
