/** Bytes, NUL-terminated strings and the two string comparisons of the C code. */
module Bytes {
  /** A byte, as an unsigned char. */
  type byte = b: int | 0 <= b < 256
  /** A byte that can occur inside a C string: anything but the terminator. */
  type Char = b: int | 0 < b < 256 witness 1
  /** The contents of a C string, without its terminator. */
  type CString = seq<Char>

  const TAB: Char := 9
  const NEWLINE: Char := 10
  const RETURN: Char := 13
  const SPACE: Char := 32
  const QUOTE: Char := 34
  const COMMA: Char := 44
  const MINUS: Char := 45
  const DOT: Char := 46
  const SLASH: Char := 47
  const ZERO: Char := 48
  const NINE: Char := 57
  const COLON: Char := 58
  const LBRACKET: Char := 91
  const BACKSLASH: Char := 92
  const RBRACKET: Char := 93
  const LBRACE: Char := 123
  const RBRACE: Char := 125
  const TILDE: Char := 126

  /** What reading the string at index `i` gives: the terminator at its end. */
  function At(s: CString, i: nat): byte {
    if i < |s| then s[i] else 0
  }

  predicate IsDigit(c: byte) {
    ZERO <= c <= NINE
  }

  /** `tolower` in the C locale. */
  function Lower(c: byte): (r: byte)
    ensures r == 0 <==> c == 0
  {
    if 65 <= c <= 90 then c + 32 else c
  }

  function LowerAll(s: CString): (r: CString)
    ensures |r| == |s|
  {
    seq(|s|, i requires 0 <= i < |s| => Lower(s[i]))
  }

  /** The same byte, or the same ASCII letter in its two cases. */
  predicate SameLetter(a: byte, b: byte) {
    a == b || (65 <= a <= 90 && b == a + 32) || (65 <= b <= 90 && a == b + 32)
  }

  /** The same name ignoring ASCII case. */
  predicate SameName(a: CString, b: CString) {
    |a| == |b| && forall i | 0 <= i < |a| :: SameLetter(a[i], b[i])
  }

  /** `Lower` picks of each letter the form that is not upper case, and nothing else decides what is the same. */
  lemma LowerDecides(a: byte, b: byte)
    ensures Lower(a) == Lower(b) <==> SameLetter(a, b)
    ensures SameLetter(Lower(a), a) && !(65 <= Lower(a) <= 90)
  {}

  /** Two names have one lower-case form exactly when they are the same ignoring ASCII case. */
  lemma LowerAllDecides(a: CString, b: CString)
    ensures LowerAll(a) == LowerAll(b) <==> SameName(a, b)
  {
    if SameName(a, b) {
      forall i | 0 <= i < |a|
        ensures LowerAll(a)[i] == LowerAll(b)[i]
      {
        LowerDecides(a[i], b[i]);
      }
    }
    if LowerAll(a) == LowerAll(b) {
      forall i | 0 <= i < |a|
        ensures SameLetter(a[i], b[i])
      {
        assert LowerAll(a)[i] == LowerAll(b)[i];
        LowerDecides(a[i], b[i]);
      }
    }
  }

  predicate HasUpper(s: CString) {
    exists i :: 0 <= i < |s| && 65 <= s[i] <= 90
  }

  /** `strcmp`: the difference of the first bytes that differ, the terminator included. */
  function Cmp(a: CString, b: CString): int {
    if a == [] || b == [] || a[0] != b[0] then At(a, 0) - At(b, 0) else Cmp(a[1..], b[1..])
  }

  /** `strcasecmp` compares the lower-case forms. */
  function CaseCmp(a: CString, b: CString): int {
    Cmp(LowerAll(a), LowerAll(b))
  }

  /** The strict order that a negative `strcmp` defines. */
  predicate Less(a: CString, b: CString) {
    Cmp(a, b) < 0
  }

  lemma {:induction false} CmpZero(a: CString, b: CString)
    ensures Cmp(a, b) == 0 <==> a == b
  {
    if a != [] && b != [] && a[0] == b[0] {
      CmpZero(a[1..], b[1..]);
      assert a == [a[0]] + a[1..] && b == [b[0]] + b[1..];
    }
  }

  /** At `i` the texts differ for the first time: `a` has ended or has the smaller byte. */
  predicate SmallerAt(a: CString, b: CString, i: nat) {
    i <= |a| && i < |b| && a[..i] == b[..i] && (i == |a| || a[i] < b[i])
  }

  /** Before in the order of bytes: a proper prefix, or smaller at the first difference. */
  predicate Before(a: CString, b: CString) {
    exists i | 0 <= i < |b| :: SmallerAt(a, b, i)
  }

  lemma SameStart(a: CString, b: CString, i: nat)
    requires SmallerAt(a, b, i)
    ensures i > 0 ==> a[0] == b[0]
  {
    if i > 0 {
      assert a[..i][0] == a[0] && b[..i][0] == b[0];
    }
  }

  lemma {:induction false} CmpBefore(a: CString, b: CString)
    ensures Cmp(a, b) < 0 <==> Before(a, b)
  {
    if a == [] || b == [] || a[0] != b[0] {
      if Cmp(a, b) < 0 {
        assert SmallerAt(a, b, 0);
      }
      if i :| 0 <= i < |b| && SmallerAt(a, b, i) {
        SameStart(a, b, i);
      }
    } else {
      CmpBefore(a[1..], b[1..]);
      if Before(a[1..], b[1..]) {
        var i :| 0 <= i < |b[1..]| && SmallerAt(a[1..], b[1..], i);
        assert a[..i + 1] == [a[0]] + a[1..][..i] && b[..i + 1] == [b[0]] + b[1..][..i];
        assert SmallerAt(a, b, i + 1);
      }
      if i :| 0 <= i < |b| && SmallerAt(a, b, i) {
        assert i > 0;
        assert a[1..][..i - 1] == a[..i][1..] && b[1..][..i - 1] == b[..i][1..];
        assert SmallerAt(a[1..], b[1..], i - 1);
      }
    }
  }

  /** `strcasecmp` gives 0 on one name and the order of the lower-case forms otherwise. */
  lemma CaseCmpDecides(a: CString, b: CString)
    ensures CaseCmp(a, b) == 0 <==> SameName(a, b)
    ensures CaseCmp(a, b) < 0 <==> Before(LowerAll(a), LowerAll(b))
  {
    CmpZero(LowerAll(a), LowerAll(b));
    CmpBefore(LowerAll(a), LowerAll(b));
    LowerAllDecides(a, b);
  }

  lemma {:induction false} CmpAntisymmetric(a: CString, b: CString)
    ensures Cmp(a, b) == -Cmp(b, a)
  {
    if a != [] && b != [] && a[0] == b[0] {
      CmpAntisymmetric(a[1..], b[1..]);
    }
  }

  lemma {:induction false} LessTransitive(a: CString, b: CString, c: CString)
    requires Cmp(a, b) <= 0 && Cmp(b, c) <= 0
    ensures Cmp(a, c) <= 0
    ensures Less(a, b) || Less(b, c) ==> Less(a, c)
  {
    if a != [] && b != [] && c != [] && a[0] == b[0] == c[0] {
      LessTransitive(a[1..], b[1..], c[1..]);
    }
  }

  lemma LowerAllDrop(a: CString)
    requires a != []
    ensures LowerAll(a)[1..] == LowerAll(a[1..])
  {}

  lemma LowerAllIdentity(s: CString)
    requires !HasUpper(s)
    ensures LowerAll(s) == s
  {
    forall i | 0 <= i < |s| ensures LowerAll(s)[i] == s[i] {
      assert !(65 <= s[i] <= 90);
    }
  }

  /** How often `c` stands at the end of `s` without a break. */
  function TrailingRun(s: CString, c: Char): (n: nat)
    ensures n <= |s|
  {
    if s != [] && s[|s| - 1] == c then 1 + TrailingRun(s[..|s| - 1], c) else 0
  }

  lemma {:induction false} TrailingRunJoins(p: CString, t: CString, c: Char)
    ensures TrailingRun(p + t, c) == if TrailingRun(t, c) == |t| then |t| + TrailingRun(p, c) else TrailingRun(t, c)
    decreases |t|
  {
    if t == [] {
      assert p + t == p;
    } else {
      var front := t[..|t| - 1];
      assert (p + t)[..|p + t| - 1] == p + front;
      TrailingRunJoins(p, front, c);
    }
  }

  lemma RunOfUnit(p: CString, c: Char)
    requires (|p| == 1 && p[0] != c) || (|p| == 2 && p[0] == c)
    ensures TrailingRun(p, c) % 2 == 0
  {
    if |p| == 2 {
      assert p[..1] == [c] && p[..1][..0] == [];
    }
  }

  /** The unit that an escaping scan steps over leaves the parity of the trailing run. */
  lemma UnitRun(s: CString, c: Char)
    requires s != [] && (s[0] == c ==> |s| >= 2)
    ensures var rest := s[if s[0] == c then 2 else 1..];
      TrailingRun(s, c) % 2 == TrailingRun(rest, c) % 2
  {
    hide TrailingRun;
    var k := if s[0] == c then 2 else 1;
    var p, t := s[..k], s[k..];
    assert s == p + t;
    TrailingRunJoins(p, t, c);
    RunOfUnit(p, c);
  }

  /** The comparison loop shared by both C files, against `CaseCmp`. */
  method StrCaseCmp(s1: CString, s2: CString) returns (r: int)
    ensures r == CaseCmp(s1, s2)
    ensures r == 0 <==> SameName(s1, s2)
  {
    var i := 0;
    ghost var a, b := LowerAll(s1), LowerAll(s2);
    CmpZero(a, b);
    LowerAllDecides(s1, s2);
    while Lower(At(s1, i)) == Lower(At(s2, i))
      invariant i <= |s1| && i <= |s2|
      invariant Cmp(a, b) == Cmp(a[i..], b[i..])
      decreases |s1| - i
    {
      if At(s1, i) == 0 {
        return 0;
      }
      i := i + 1;
    }
    return Lower(At(s1, i)) - Lower(At(s2, i));
  }
}
