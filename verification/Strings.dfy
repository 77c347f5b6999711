/** String literals: escaping, unescaping and the transcoding of UTF-16 escapes to UTF-8. */
module Strings {
  import opened Bytes
  import opened Options

  const LOWER_B: Char := 98
  const LOWER_F: Char := 102
  const LOWER_N: Char := 110
  const LOWER_R: Char := 114
  const LOWER_T: Char := 116
  const LOWER_U: Char := 117

  // ----- escaping

  /** The letter of a two-character escape, for the bytes that have one. */
  function ShortEscape(c: byte): Option<Char> {
    if c == QUOTE || c == BACKSLASH then Some(c)
    else if c == 8 then Some(LOWER_B)
    else if c == 12 then Some(LOWER_F)
    else if c == NEWLINE then Some(LOWER_N)
    else if c == RETURN then Some(LOWER_R)
    else if c == TAB then Some(LOWER_T)
    else None
  }

  function HexDigit(v: nat): Char
    requires v < 16
  {
    if v < 10 then ZERO + v else 97 + v - 10
  }

  function EscapeByte(c: Char): CString {
    if c > 31 && c != QUOTE && c != BACKSLASH then [c]
    else match ShortEscape(c)
      case Some(e) => [BACKSLASH, e]
      case None => [BACKSLASH, LOWER_U, ZERO, ZERO, HexDigit(c / 16), HexDigit(c % 16)]
  }

  /** The printed form of every byte: the seven short escapes, four lower-case digits, or the byte itself. */
  lemma EscapeTable(c: Char)
    ensures c >= 32 && c != 34 && c != 92 ==> EscapeByte(c) == [c]
    ensures EscapeByte(34) == [92, 34] && EscapeByte(92) == [92, 92] && EscapeByte(8) == [92, 98]
    ensures EscapeByte(12) == [92, 102] && EscapeByte(10) == [92, 110] && EscapeByte(13) == [92, 114]
    ensures EscapeByte(9) == [92, 116]
    ensures c < 32 && c != 8 && c != 9 && c != 10 && c != 12 && c != 13 ==>
      var e := EscapeByte(c);
      && |e| == 6 && e[..5] == [92, 117, 48, 48, if c < 16 then 48 else 49]
      && if c % 16 < 10 then e[5] == 48 + c % 16 else e[5] == 87 + c % 16
  {}

  function Escape(s: CString): CString {
    if s == [] then [] else EscapeByte(s[0]) + Escape(s[1..])
  }

  /** A string as JSON text. */
  function Quoted(s: CString): CString {
    [QUOTE] + Escape(s) + [QUOTE]
  }

  /** Needs no escape: the condition of the fast path. */
  predicate Plain(s: CString) {
    forall i :: 0 <= i < |s| ==> s[i] >= 32 && s[i] != QUOTE && s[i] != BACKSLASH
  }

  // ----- unescaping

  function HexValue(c: byte): Option<nat> {
    if ZERO <= c <= NINE then Some(c - ZERO)
    else if 65 <= c <= 70 then Some(c - 55)
    else if 97 <= c <= 102 then Some(c - 87)
    else None
  }

  /** `parse_hex4`: four digits from `i` on, or 0. */
  function Hex4(s: CString, i: nat): nat {
    match (HexValue(At(s, i)), HexValue(At(s, i + 1)), HexValue(At(s, i + 2)), HexValue(At(s, i + 3)))
    case (Some(a), Some(b), Some(c), Some(d)) => ((a * 16 + b) * 16 + c) * 16 + d
    case _ => 0
  }

  predicate HighSurrogate(u: nat) {
    0xD800 <= u <= 0xDBFF
  }

  predicate LowSurrogate(u: nat) {
    0xDC00 <= u <= 0xDFFF
  }

  /** A code point that a C string can hold: a Unicode scalar value other than NUL. */
  predicate Scalar(u: nat) {
    0 < u < 0x110000 && !HighSurrogate(u) && !LowSurrogate(u)
  }

  /** The UTF-8 form of a code point, RFC 3629 section 3. */
  function Utf8(u: nat): CString
    requires Scalar(u)
  {
    if u < 0x80 then [u]
    else if u < 0x800 then [0xC0 + u / 0x40, 0x80 + u % 0x40]
    else if u < 0x10000 then [0xE0 + u / 0x1000, 0x80 + u / 0x40 % 0x40, 0x80 + u % 0x40]
    else [0xF0 + u / 0x40000, 0x80 + u / 0x1000 % 0x40, 0x80 + u / 0x40 % 0x40, 0x80 + u % 0x40]
  }

  /** The code point of a surrogate pair. */
  function Combine(high: nat, low: nat): (r: nat)
    requires HighSurrogate(high) && LowSurrogate(low)
    ensures 0x10000 <= r < 0x110000
  {
    0x10000 + high % 0x400 * 0x400 + low % 0x400
  }

  /** One `\u` escape, or a pair, at the start of `body`: the code point and the bytes it takes. */
  function UnicodeEscape(body: CString): (r: Option<(nat, nat)>)
    ensures r.Some? ==> Scalar(r.value.0) && 6 <= r.value.1 <= |body|
  {
    if |body| < 6 then None
    else
      var u := Hex4(body, 2);
      if LowSurrogate(u) || u == 0 || u >= 0x110000 then None
      else if !HighSurrogate(u) then Some((u, 6))
      else if |body| < 12 || body[6] != BACKSLASH || body[7] != LOWER_U || !LowSurrogate(Hex4(body, 8)) then None
      else Some((Combine(u, Hex4(body, 8)), 12))
  }

  /** What the escape letter stands for when it is not `u`; an unknown letter stands for itself. */
  function Unescaped(c: Char): Char {
    if c == LOWER_B then 8
    else if c == LOWER_F then 12
    else if c == LOWER_N then NEWLINE
    else if c == LOWER_R then RETURN
    else if c == LOWER_T then TAB
    else c
  }

  function Prepend(p: CString, r: Option<CString>): Option<CString> {
    match r
    case Some(s) => Some(p + s)
    case None => None
  }

  /** The contents of a literal, decoded; None when an escape is invalid. */
  function Decode(body: CString): Option<CString>
    decreases |body|
  {
    if body == [] then Some([])
    else if body[0] != BACKSLASH then Prepend([body[0]], Decode(body[1..]))
    else if |body| < 2 then None
    else if body[1] != LOWER_U then Prepend([Unescaped(body[1])], Decode(body[2..]))
    else match UnicodeEscape(body)
      case None => None
      case Some((u, n)) => Prepend(Utf8(u), Decode(body[n..]))
  }

  /**
   * Looks for the end of the literal whose contents start `s`: its closing quote or the end of the text.
   * Gives the index and the number of units counted for the buffer; None when a final backslash makes the
   * scan step over the terminator.
   */
  function Scan(s: CString): Option<(nat, nat)>
    decreases |s|
  {
    if s == [] || s[0] == QUOTE then Some((0, 0))
    else if s[0] == BACKSLASH && |s| < 2 then None
    else
      var step := if s[0] == BACKSLASH then 2 else 1;
      match Scan(s[step..])
      case None => None
      case Some((n, units)) => Some((n + step, units + 1))
  }

  lemma {:induction false} ScanWithin(s: CString)
    ensures Scan(s).Some? ==> Scan(s).value.1 <= Scan(s).value.0 <= |s|
    decreases |s|
  {
    if s != [] && s[0] != QUOTE && !(s[0] == BACKSLASH && |s| < 2) {
      ScanWithin(s[if s[0] == BACKSLASH then 2 else 1..]);
    }
  }

  /** Every quote in `s` is escaped: an odd run of backslashes stands before it. */
  predicate QuotesEscaped(s: CString) {
    forall i | 0 <= i < |s| && s[i] == QUOTE :: TrailingRun(s[..i], BACKSLASH) % 2 == 1
  }

  lemma QuotesAfterUnit(s: CString)
    requires s != [] && s[0] != QUOTE && (s[0] == BACKSLASH ==> |s| >= 2)
    ensures QuotesEscaped(s) <==> QuotesEscaped(s[if s[0] == BACKSLASH then 2 else 1..])
  {
    var k := if s[0] == BACKSLASH then 2 else 1;
    var rest := s[k..];
    forall i | k <= i < |s|
      ensures TrailingRun(s[..i], BACKSLASH) % 2 == TrailingRun(rest[..i - k], BACKSLASH) % 2
      ensures s[i] == rest[i - k]
    {
      UnitRun(s[..i], BACKSLASH);
      assert s[..i][k..] == rest[..i - k];
    }
    if k == 2 {
      assert s[..1] == [BACKSLASH] && s[..1][..0] == [];
      assert TrailingRun(s[..1], BACKSLASH) == 1;
    }
    if QuotesEscaped(s) {
      forall j | 0 <= j < |rest| && rest[j] == QUOTE
        ensures TrailingRun(rest[..j], BACKSLASH) % 2 == 1
      {
        assert s[j + k] == QUOTE;
      }
    }
  }

  /** The scan steps over the terminator exactly when no quote closes the literal and a backslash escapes it. */
  lemma {:induction false} ScanOverruns(s: CString)
    ensures Scan(s).None? <==> QuotesEscaped(s) && TrailingRun(s, BACKSLASH) % 2 == 1
    decreases |s|
  {
    if s != [] && s[0] == QUOTE {
      assert TrailingRun(s[..0], BACKSLASH) == 0;
    } else if s != [] && (s[0] == BACKSLASH ==> |s| >= 2) {
      var rest := s[if s[0] == BACKSLASH then 2 else 1..];
      ScanOverruns(rest);
      QuotesAfterUnit(s);
      UnitRun(s, BACKSLASH);
    } else if s != [] {
      assert s[..0] == [] && TrailingRun(s, BACKSLASH) == 1 && s[0] != QUOTE;
    }
  }

  // ----- unescaping undoes escaping

  lemma PrependTwice(p: CString, q: CString, r: Option<CString>)
    ensures Prepend(p, Prepend(q, r)) == Prepend(p + q, r)
  {
    if r.Some? {
      assert p + (q + r.value) == p + q + r.value;
    }
  }

  lemma DecodeEscapedByte(c: Char, post: CString)
    ensures Decode(EscapeByte(c) + post) == Prepend([c], Decode(post))
  {
    var e := EscapeByte(c);
    assert (e + post)[|e|..] == post;
    if |e| == 6 {
      ReadControlEscape(c, post);
    }
  }

  lemma ReadControlEscape(c: Char, post: CString)
    requires |EscapeByte(c)| == 6
    ensures UnicodeEscape(EscapeByte(c) + post) == Some((c as nat, 6))
  {
    var e := EscapeByte(c);
    var body := e + post;
    assert body[2] == ZERO && body[3] == ZERO && body[4] == e[4] && body[5] == e[5];
    assert HexValue(e[4]) == Some(c / 16) && HexValue(e[5]) == Some(c % 16);
  }

  /** Decoding the escaped contents gives the contents back. */
  lemma {:induction false} DecodeEscape(s: CString)
    ensures Decode(Escape(s)) == Some(s)
  {
    if s != [] {
      DecodeEscapedByte(s[0], Escape(s[1..]));
      DecodeEscape(s[1..]);
      assert s == [s[0]] + s[1..];
    }
  }

  /** The scan stops at the closing quote of an escaped string. */
  lemma {:induction false} ScanEscape(s: CString, post: CString)
    ensures Scan(Escape(s) + [QUOTE] + post).Some?
    ensures Scan(Escape(s) + [QUOTE] + post).value.0 == |Escape(s)|
  {
    var text := Escape(s) + [QUOTE] + post;
    if s != [] {
      ScanEscape(s[1..], post);
      var e := EscapeByte(s[0]);
      var more := Escape(s[1..]) + [QUOTE] + post;
      assert text == e + more;
      ScanEscapedByte(s[0], more);
    }
  }

  lemma ScanEscapedByte(c: Char, more: CString)
    requires Scan(more).Some?
    ensures Scan(EscapeByte(c) + more).Some?
    ensures Scan(EscapeByte(c) + more).value.0 == |EscapeByte(c)| + Scan(more).value.0
  {
    var e := EscapeByte(c);
    var text := e + more;
    assert text[|e|..] == more;
    if |e| == 6 {
      ScanPlain(e[5], more);
      ScanPlain(e[4], [e[5]] + more);
      ScanPlain(e[3], [e[4]] + ([e[5]] + more));
      ScanPlain(e[2], [e[3]] + ([e[4]] + ([e[5]] + more)));
      assert text[2..] == [e[2]] + ([e[3]] + ([e[4]] + ([e[5]] + more)));
    }
  }

  lemma ScanPlain(c: Char, more: CString)
    requires Scan(more).Some? && c != QUOTE && c != BACKSLASH
    ensures Scan([c] + more) == Some((Scan(more).value.0 + 1, Scan(more).value.1 + 1))
  {
    assert ([c] + more)[1..] == more;
  }

  // ----- the size of the escaped text

  /** The length the code computes before allocating: a byte, and one or five more for an escape. */
  function EscapedLength(s: CString): nat {
    if s == [] then 0
    else (if ShortEscape(s[0]).Some? then 2 else if s[0] < 32 then 6 else 1) + EscapedLength(s[1..])
  }

  lemma {:induction false} EscapedLengthExact(s: CString)
    ensures EscapedLength(s) == |Escape(s)|
  {
    if s != [] {
      EscapedLengthExact(s[1..]);
    }
  }

  /** The fast path: a string without escapes is copied as it is. */
  lemma {:induction false} PlainEscape(s: CString)
    requires Plain(s)
    ensures Escape(s) == s
  {
    if s != [] {
      assert s == [s[0]] + s[1..];
      PlainEscape(s[1..]);
    }
  }

  // ----- the decoder's buffer

  /** Decoding never needs more bytes than the units that the scan counted. */
  lemma {:induction false} DecodedFits(s: CString)
    requires Scan(s).Some?
    ensures var (n, units) := Scan(s).value;
      n <= |s| && (Decode(s[..n]).Some? ==> |Decode(s[..n]).value| <= units)
    decreases |s|
  {
    ScanWithin(s);
    var n := Scan(s).value.0;
    if n > 0 {
      if s[0] == BACKSLASH && s[1] == LOWER_U {
        var e := UnicodeEscape(s[..n]);
        if e.Some? {
          EscapeUnits(s, n);
          DecodedFits(s[e.value.1..]);
          DropTake(s, n, e.value.1);
        }
      } else {
        var k := if s[0] == BACKSLASH then 2 else 1;
        DecodedFits(s[k..]);
        DropTake(s, n, k);
      }
    }
  }

  lemma DropTake(s: CString, n: nat, k: nat)
    requires k <= n <= |s|
    ensures s[..n][k..] == s[k..][..n - k]
  {}

  lemma HexPlain(s: CString, i: nat)
    requires Hex4(s, i) != 0
    ensures i + 4 <= |s| && forall j :: i <= j < i + 4 ==> s[j] != QUOTE && s[j] != BACKSLASH
  {
    assert HexValue(At(s, i)).Some? && HexValue(At(s, i + 1)).Some?;
    assert HexValue(At(s, i + 2)).Some? && HexValue(At(s, i + 3)).Some?;
  }

  /** A valid `\u` escape counts five units, a pair ten. */
  lemma EscapeUnits(s: CString, n: nat)
    requires Scan(s).Some? && n == Scan(s).value.0 <= |s| && UnicodeEscape(s[..n]).Some?
    requires s[0] == BACKSLASH && s[1] == LOWER_U
    ensures var k := UnicodeEscape(s[..n]).value.1;
      && k <= n && Scan(s[k..]).Some? && Scan(s[k..]).value.0 == n - k
      && Scan(s).value.1 == Scan(s[k..]).value.1 + (if k == 6 then 5 else 10)
  {
    var k := UnicodeEscape(s[..n]).value.1;
    HexPlain(s[..n], 2);
    FiveUnits(s);
    if k == 12 {
      HexPlain(s[..n], 8);
      var t := s[6..];
      assert t[0] == BACKSLASH && t[1] == LOWER_U;
      assert forall j :: 2 <= j < 6 ==> t[j] == s[..n][6 + j];
      FiveUnits(t);
      assert t[6..] == s[12..];
    }
  }

  lemma FiveUnits(s: CString)
    requires |s| >= 6 && s[0] == BACKSLASH && Scan(s).Some?
    requires forall j :: 2 <= j < 6 ==> s[j] != QUOTE && s[j] != BACKSLASH
    ensures Scan(s[6..]) == Some((Scan(s).value.0 - 6, Scan(s).value.1 - 5)) && Scan(s).value.0 >= 6
  {
    assert s[2..][1..] == s[3..] && s[3..][1..] == s[4..] && s[4..][1..] == s[5..] && s[5..][1..] == s[6..];
    assert s[2..][0] == s[2] && s[3..][0] == s[3] && s[4..][0] == s[4] && s[5..][0] == s[5];
    assert Scan(s[2..]).Some? && Scan(s[3..]).Some? && Scan(s[4..]).Some? && Scan(s[5..]).Some?;
  }

  // ----- UTF-16 escapes become UTF-8

  /** Reading one code point of UTF-8 text by the table of RFC 3629 section 4, shortest forms only. */
  function Utf8Read(s: CString): Option<(nat, CString)> {
    if s == [] then None
    else if s[0] < 0x80 then Some((s[0], s[1..]))
    else if 0xC2 <= s[0] < 0xE0 && Continues(s, 1) then Some((Bits(s[0], 0xC0) * 0x40 + Bits(s[1], 0x80), s[2..]))
    else if 0xE0 <= s[0] < 0xF0 && Continues(s, 2) then
      var u := (Bits(s[0], 0xE0) * 0x40 + Bits(s[1], 0x80)) * 0x40 + Bits(s[2], 0x80);
      if u < 0x800 || HighSurrogate(u) || LowSurrogate(u) then None else Some((u, s[3..]))
    else if 0xF0 <= s[0] < 0xF5 && Continues(s, 3) then
      var u := ((Bits(s[0], 0xF0) * 0x40 + Bits(s[1], 0x80)) * 0x40 + Bits(s[2], 0x80)) * 0x40 + Bits(s[3], 0x80);
      if u < 0x10000 || u >= 0x110000 then None else Some((u, s[4..]))
    else None
  }

  /** What a byte carries beside its marker bits. */
  function Bits(c: Char, marker: nat): nat
    requires marker <= c
  {
    var v: int := c;
    v - marker
  }

  predicate Continues(s: CString, k: nat) {
    |s| > k && forall i :: 1 <= i <= k ==> 0x80 <= s[i] < 0xC0
  }

  lemma Utf8ReadBack(u: nat, post: CString)
    requires Scalar(u)
    ensures Utf8Read(Utf8(u) + post) == Some((u, post))
  {
    var e := Utf8(u);
    var s := e + post;
    assert s[|e|..] == post;
    assert forall i :: 0 <= i < |e| ==> s[i] == e[i];
    if u >= 0x800 {
      assert u / 0x40 / 0x40 == u / 0x1000;
    }
    if u >= 0x10000 {
      assert u / 0x1000 / 0x40 == u / 0x40000;
    }
  }

  function Hex4Digits(v: nat): CString
    requires v < 0x10000
  {
    [HexDigit(v / 0x1000), HexDigit(v / 0x100 % 16), HexDigit(v / 16 % 16), HexDigit(v % 16)]
  }

  /** The escape of a code point that RFC 8259 section 7 prescribes: one `\u`, or a surrogate pair. */
  function Utf16Escape(u: nat): CString
    requires Scalar(u)
  {
    if u < 0x10000 then [BACKSLASH, LOWER_U] + Hex4Digits(u)
    else
      var v := u - 0x10000;
      [BACKSLASH, LOWER_U] + Hex4Digits(0xD800 + v / 0x400) + [BACKSLASH, LOWER_U] + Hex4Digits(0xDC00 + v % 0x400)
  }

  function EscapeAll(us: seq<nat>): CString
    requires forall u | u in us :: Scalar(u)
  {
    if us == [] then [] else Utf16Escape(us[0]) + EscapeAll(us[1..])
  }

  /** A whole string of UTF-8 text, read back as code points. */
  function Utf8ReadAll(s: CString): Option<seq<nat>>
    decreases |s|
  {
    if s == [] then Some([])
    else match Utf8Read(s)
      case None => None
      case Some((u, rest)) =>
        match Utf8ReadAll(rest)
        case None => None
        case Some(us) => Some([u] + us)
  }

  lemma Hex4OfDigits(s: CString, i: nat, v: nat)
    requires v < 0x10000 && i + 4 <= |s| && s[i..i + 4] == Hex4Digits(v)
    ensures Hex4(s, i) == v
  {
    var d := Hex4Digits(v);
    var t := s[i..i + 4];
    assert s[i] == t[0] && s[i + 1] == t[1] && s[i + 2] == t[2] && s[i + 3] == t[3];
    assert v / 16 / 16 == v / 0x100 && v / 0x100 / 16 == v / 0x1000;
  }

  lemma CombineSplit(v: nat)
    requires v < 0x100000
    ensures HighSurrogate(0xD800 + v / 0x400) && LowSurrogate(0xDC00 + v % 0x400)
    ensures Combine(0xD800 + v / 0x400, 0xDC00 + v % 0x400) == 0x10000 + v
  {
    assert 0xD800 % 0x400 == 0 && 0xDC00 % 0x400 == 0;
    assert (0xD800 + v / 0x400) % 0x400 == v / 0x400;
    assert (0xDC00 + v % 0x400) % 0x400 == v % 0x400;
  }

  lemma ReadUtf16Escape(u: nat, post: CString)
    requires Scalar(u)
    ensures UnicodeEscape(Utf16Escape(u) + post) == Some((u, |Utf16Escape(u)|))
  {
    var s := Utf16Escape(u) + post;
    if u < 0x10000 {
      assert s[2..6] == Hex4Digits(u);
      Hex4OfDigits(s, 2, u);
    } else {
      var v := u - 0x10000;
      var high, low := 0xD800 + v / 0x400, 0xDC00 + v % 0x400;
      CombineSplit(v);
      assert s[2..6] == Hex4Digits(high);
      Hex4OfDigits(s, 2, high);
      assert s[8..12] == Hex4Digits(low);
      Hex4OfDigits(s, 8, low);
      assert s[6] == BACKSLASH && s[7] == LOWER_U;
      PairRead(s, high, low);
    }
  }

  lemma PairRead(s: CString, high: nat, low: nat)
    requires |s| >= 12 && s[6] == BACKSLASH && s[7] == LOWER_U
    requires HighSurrogate(high) && LowSurrogate(low) && Hex4(s, 2) == high && Hex4(s, 8) == low
    ensures UnicodeEscape(s) == Some((Combine(high, low), 12))
  {}

  lemma DecodeUtf16Escape(u: nat, post: CString)
    requires Scalar(u)
    ensures Decode(Utf16Escape(u) + post) == Prepend(Utf8(u), Decode(post))
  {
    var e := Utf16Escape(u);
    ReadUtf16Escape(u, post);
    assert (e + post)[|e|..] == post;
  }

  /** Text written wholly in `\u` escapes decodes to UTF-8 that reads as the same code points. */
  lemma {:induction false} EscapesBecomeUtf8(us: seq<nat>)
    requires forall u | u in us :: Scalar(u)
    ensures Decode(EscapeAll(us)).Some?
    ensures Utf8ReadAll(Decode(EscapeAll(us)).value) == Some(us)
  {
    if us != [] {
      EscapesBecomeUtf8(us[1..]);
      DecodeUtf16Escape(us[0], EscapeAll(us[1..]));
      var rest := Decode(EscapeAll(us[1..])).value;
      Utf8ReadBack(us[0], rest);
      assert Decode(EscapeAll(us)) == Some(Utf8(us[0]) + rest) && us == [us[0]] + us[1..];
    }
  }
}
