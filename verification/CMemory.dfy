/** C strings inside byte arrays, written from left to right. */
module CMemory {
  import opened Bytes
  import opened Sequences
  import opened Strings

  /** The array starts with `s`. */
  ghost predicate Holds(a: array<byte>, s: seq<byte>)
    reads a
  {
    |s| <= a.Length && a[..|s|] == s
  }

  /** The array holds `s` and a terminator. */
  ghost predicate Text(a: array<byte>, s: CString)
    reads a
  {
    var text: seq<byte> := s;
    Holds(a, text + [0])
  }

  method Put(a: array<byte>, at: nat, c: byte, ghost before: seq<byte>)
    requires Holds(a, before) && at == |before| < a.Length
    modifies a
    ensures Holds(a, before + [c])
  {
    a[at] := c;
  }

  /** Copies `s` without a terminator. */
  method PutAll(a: array<byte>, at: nat, s: seq<byte>, ghost before: seq<byte>)
    requires Holds(a, before) && at == |before| && at + |s| <= a.Length
    modifies a
    ensures Holds(a, before + s)
  {
    var i := 0;
    assert before + s[..0] == before;
    while i < |s|
      invariant i <= |s| && Holds(a, before + s[..i])
    {
      Put(a, at + i, s[i], before + s[..i]);
      assert before + s[..i + 1] == before + s[..i] + [s[i]];
      i := i + 1;
    }
    assert s[..i] == s;
  }

  /** `strlen` from `at`, where the rest of a terminated text stands. */
  method StrLen(a: array<byte>, at: nat, ghost before: seq<byte>, ghost text: CString) returns (n: nat)
    requires Holds(a, before + text + [0]) && |before| <= at <= |before| + |text|
    ensures at + n == |before| + |text|
  {
    n := 0;
    ghost var all := before + text + [0];
    while a[at + n] != 0
      invariant at + n <= |before| + |text|
      decreases |text| - n
    {
      assert a[..|all|][at + n] == all[at + n];
      n := n + 1;
    }
    assert a[..|all|][at + n] == all[at + n];
  }

  // ----- string literals

  /** Whether `s` needs no escapes, and the size of its literal with quotes and terminator. */
  method QuotedSize(s: CString) returns (plain: bool, needed: nat)
    ensures plain <==> Plain(s)
    ensures needed == |Quoted(s)| + 1
  {
    EscapedLengthExact(s);
    plain := true;
    var i := 0;
    while i < |s|
      invariant i <= |s| && (plain <==> Plain(s[..i]))
    {
      assert s[..i + 1] == s[..i] + [s[i]];
      plain := plain && !(s[i] < 32 || s[i] == QUOTE || s[i] == BACKSLASH);
      i := i + 1;
    }
    assert s[..i] == s;
    if plain {
      PlainEscape(s);
      return plain, |s| + 3;
    }
    var len := 0;
    i := 0;
    while i < |s|
      invariant i <= |s| && len + EscapedLength(s[i..]) == EscapedLength(s)
    {
      assert s[i..][1..] == s[i + 1..];
      len := len + 1;
      if ShortEscape(s[i]).Some? {
        len := len + 1;
      } else if s[i] < 32 {
        len := len + 5;
      }
      i := i + 1;
    }
    needed := len + 3;
  }

  /** Writes the literal of `s` and a terminator: exactly the room that `QuotedSize` counts. */
  method PutQuoted(a: array<byte>, at: nat, s: CString, plain: bool, ghost before: seq<byte>)
    requires Holds(a, before) && at == |before| && at + |Quoted(s)| + 1 <= a.Length
    requires plain <==> Plain(s)
    modifies a
    ensures Holds(a, before + Quoted(s) + [0])
  {
    hide Plain, Escape;
    Put(a, at, QUOTE, before);
    var end;
    if plain {
      PlainEscape(s);
      PutAll(a, at + 1, s, before + [QUOTE]);
      end := at + 1 + |s|;
    } else {
      end := PutEscaped(a, at + 1, s, before + [QUOTE]);
    }
    Put(a, end, QUOTE, before + [QUOTE] + Escape(s));
    Put(a, end + 1, 0, before + [QUOTE] + Escape(s) + [QUOTE]);
    assert before + Quoted(s) == before + [QUOTE] + Escape(s) + [QUOTE];
  }

  method PutEscaped(a: array<byte>, at: nat, s: CString, ghost before: seq<byte>) returns (end: nat)
    requires Holds(a, before) && at == |before| && at + |Escape(s)| <= a.Length
    modifies a
    ensures Holds(a, before + Escape(s)) && end == at + |Escape(s)|
  {
    hide Escape, EscapeByte;
    end := at;
    var i := 0;
    ghost var done: CString := [];
    assert before + done == before && s[0..] == s;
    while i < |s|
      invariant i <= |s| && done + Escape(s[i..]) == Escape(s)
      invariant Holds(a, before + done) && end == at + |done|
    {
      EscapeStep(s, i, done);
      end := PutByte(a, end, s[i], before + done);
      Associative(before, done, EscapeByte(s[i]));
      done := done + EscapeByte(s[i]);
      i := i + 1;
    }
    EscapeNothing(s[i..], done);
  }

  lemma EscapeStep(s: CString, i: nat, done: CString)
    requires i < |s|
    ensures done + Escape(s[i..]) == done + EscapeByte(s[i]) + Escape(s[i + 1..])
  {
    hide EscapeByte;
    assert s[i..][1..] == s[i + 1..];
  }

  lemma EscapeNothing(s: CString, done: CString)
    requires s == []
    ensures done + Escape(s) == done
  {}

  /** One byte of a literal, escaped where it has to be. */
  method PutByte(a: array<byte>, at: nat, c: Char, ghost before: seq<byte>) returns (end: nat)
    requires Holds(a, before) && at == |before| && at + |EscapeByte(c)| <= a.Length
    modifies a
    ensures Holds(a, before + EscapeByte(c)) && end == at + |EscapeByte(c)|
  {
    if c > 31 && c != QUOTE && c != BACKSLASH {
      Put(a, at, c, before);
      return at + 1;
    }
    Put(a, at, BACKSLASH, before);
    ghost var next := before + [BACKSLASH];
    if ShortEscape(c).Some? {
      Put(a, at + 1, ShortEscape(c).value, next);
      assert before + EscapeByte(c) == next + [ShortEscape(c).value];
      return at + 2;
    }
    var digits := [LOWER_U, ZERO, ZERO, HexDigit(c / 16), HexDigit(c % 16)];
    PutAll(a, at + 1, digits, next);
    assert before + EscapeByte(c) == next + digits;
    end := at + 6;
  }
}
