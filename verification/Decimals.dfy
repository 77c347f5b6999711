/** Runs of decimal digits and the numbers that they spell, apart from the code that reads and writes them. */
module Decimals {
  import opened Bytes
  import opened Numerals

  /** How far a byte is above `base`. */
  function Above(c: byte, base: int): int {
    var v: int := c;
    v - base
  }

  predicate AllDigits(s: CString) {
    forall i | 0 <= i < |s| :: 48 <= s[i] <= 57
  }

  predicate DigitRun(s: CString) {
    s != [] && AllDigits(s)
  }

  /** The number that digits spell. */
  function Weight(s: CString): nat
    requires AllDigits(s)
  {
    if s == [] then 0 else Weight(s[..|s| - 1]) * 10 + Above(s[|s| - 1], 48)
  }

  /** The text of a number spells it. */
  lemma {:induction false} DigitsWeigh(n: nat)
    ensures DigitRun(Digits(n)) && Weight(Digits(n)) == n
  {
    if n >= 10 {
      var s := Digits(n);
      DigitsWeigh(n / 10);
      assert s[..|s| - 1] == Digits(n / 10);
    } else {
      assert Digits(n)[..0] == [];
    }
  }

  // ----- reading digits

  /** Reads the digits onto `n`. */
  function Onto(n: nat, s: CString): nat
    requires AllDigits(s)
  {
    if s == [] then n else Onto(n, s[..|s| - 1]) * 10 + Above(s[|s| - 1], 48)
  }

  lemma {:induction false} OntoFront(n: nat, s: CString)
    requires AllDigits(s) && s != []
    ensures Onto(n, s) == Onto(n * 10 + Above(s[0], 48), s[1..])
    decreases |s|
  {
    if |s| == 1 {
      assert s[..0] == [] && s[1..] == [];
    } else {
      OntoFront(n, s[..|s| - 1]);
      assert s[..|s| - 1][1..] == s[1..][..|s| - 2];
    }
  }

  lemma {:induction false} ReadsOnto(s: CString, n: nat, post: CString)
    requires AllDigits(s) && !IsDigit(At(post, 0))
    ensures ReadDigits(s + post, n) == (Onto(n, s), post)
    decreases |s|
  {
    if s == [] {
      assert s + post == post;
    } else {
      OntoFront(n, s);
      assert (s + post)[1..] == s[1..] + post;
      ReadsOnto(s[1..], n * 10 + Above(s[0], 48), post);
    }
  }

  lemma {:induction false} OntoIsWeight(s: CString)
    requires AllDigits(s)
    ensures Onto(0, s) == Weight(s)
  {
    if s != [] {
      OntoIsWeight(s[..|s| - 1]);
    }
  }

  /** Digits that are followed by another byte of the same text are read up to that byte. */
  lemma {:induction false} StopsAtOther(s: CString, n: nat, post: CString)
    requires !AllDigits(s)
    ensures var rest := ReadDigits(s + post, n).1;
      rest != [] && rest[0] in s && !IsDigit(rest[0])
    decreases |s|
  {
    assert s[0] in s && (s + post)[0] == s[0];
    if IsDigit(s[0]) {
      assert (s + post)[1..] == s[1..] + post;
      assert !AllDigits(s[1..]);
      StopsAtOther(s[1..], n * 10 + Above(s[0], 48), post);
      assert forall c | c in s[1..] :: c in s;
    }
  }

  predicate AllSpaces(s: CString) {
    forall i | 0 <= i < |s| :: s[i] == 32 || 9 <= s[i] <= 13
  }

  /** The parts of a text that `atoi` tells apart: white space, a sign, digits, and what follows them. */
  predicate Numeral(spaces: CString, sign: CString, digits: CString, post: CString) {
    && AllSpaces(spaces) && (sign == [] || sign == [43] || sign == [45]) && AllDigits(digits)
    && (post == [] || !(48 <= post[0] <= 57))
    && (sign == [] && digits == [] && post != [] ==>
          !(post[0] == 32 || 9 <= post[0] <= 13) && post[0] != 43 && post[0] != 45)
  }

  /** `atoi` reads the digits behind white space and a sign. */
  lemma {:induction false} AtoiReads(spaces: CString, sign: CString, digits: CString, post: CString)
    requires Numeral(spaces, sign, digits, post)
    ensures Atoi(spaces + sign + digits + post) == if sign == [45] then -(Weight(digits) as int) else Weight(digits)
    decreases |spaces|
  {
    var s := spaces + sign + digits + post;
    if spaces != [] {
      assert s[1..] == spaces[1..] + sign + digits + post;
      AtoiReads(spaces[1..], sign, digits, post);
    } else {
      assert s == sign + digits + post;
      AtoiBare(sign, digits, post);
    }
  }

  lemma AtoiBare(sign: CString, digits: CString, post: CString)
    requires Numeral([], sign, digits, post)
    ensures Atoi(sign + digits + post) == if sign == [45] then -(Weight(digits) as int) else Weight(digits)
  {
    ReadsOnto(digits, 0, post);
    OntoIsWeight(digits);
    hide ReadDigits, Weight, Onto;
    var s := sign + digits + post;
    if sign == [] {
      assert s == digits + post;
      if digits == [] {
        assert s == post;
      } else {
        assert s[0] == digits[0];
      }
      assert !(s != [] && IsSpace(s[0]));
    } else {
      assert s[1..] == digits + post && s[0] == sign[0];
    }
  }

  /** Every text has such parts. */
  lemma NumeralOf(s: CString) returns (spaces: CString, sign: CString, digits: CString, post: CString)
    ensures s == spaces + sign + digits + post && Numeral(spaces, sign, digits, post)
  {
    var i := 0;
    while i < |s| && (s[i] == 32 || 9 <= s[i] <= 13)
      invariant i <= |s| && AllSpaces(s[..i])
    {
      i := i + 1;
    }
    var j := if i < |s| && (s[i] == 43 || s[i] == 45) then i + 1 else i;
    var k := j;
    while k < |s| && 48 <= s[k] <= 57
      invariant j <= k <= |s| && AllDigits(s[j..k])
    {
      assert s[j..k + 1] == s[j..k] + [s[k]];
      k := k + 1;
    }
    spaces, sign, digits, post := s[..i], s[i..j], s[j..k], s[k..];
    assert s == s[..i] + s[i..j] + s[j..k] + s[k..];
  }
}
