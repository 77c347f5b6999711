/** The parser as it runs: indices that advance over one text, and loops over items and members. */
module ParseRuns {
  import opened Bytes
  import opened CMemory
  import opened Numerals
  import opened Options
  import opened Parsing
  import opened Printing
  import opened Strings
  import opened Trees

  /** What a parsing method leaves: a value and the index after it, or the index of the error. */
  datatype Outcome<+T> = Done(value: T, end: nat) | Wrong(at: nat) | Overran

  predicate Within<T>(text: CString, r: Outcome<T>) {
    match r
    case Done(_, end) => end <= |text|
    case Wrong(at) => at <= |text|
    case Overran => true
  }

  /** The outcome in terms of the text that is left. */
  function Left<T>(text: CString, r: Outcome<T>): Parse<T>
    requires Within(text, r)
  {
    match r
    case Done(v, end) => Parsed(v, text[end..])
    case Wrong(at) => Failed(text[at..])
    case Overran => Overrun
  }

  method SkipFrom(text: CString, at: nat) returns (end: nat)
    requires at <= |text|
    ensures at <= end <= |text| && text[end..] == Skip(text[at..])
  {
    end := at;
    while end < |text| && text[end] <= 32
      invariant at <= end <= |text| && Skip(text[end..]) == Skip(text[at..])
    {
      assert text[end..][1..] == text[end + 1..];
      end := end + 1;
    }
  }

  // ----- strings

  /**
   * The first loop of `parse_string`. It is not `ok` exactly when it steps over the terminator: no quote closes the
   * literal and the last of the backslashes at the end of the text escapes the terminator.
   */
  method FindEnd(text: CString, start: nat) returns (ok: bool, end: nat, units: nat)
    requires start <= |text|
    ensures ok <==> !(QuotesEscaped(text[start..]) && TrailingRun(text[start..], BACKSLASH) % 2 == 1)
    ensures ok ==> start <= end <= |text| && Scan(text[start..]) == Some((end - start, units))
  {
    hide QuotesEscaped, TrailingRun;
    ScanOverruns(text[start..]);
    end, units := start, 0;
    while end < |text| && text[end] != QUOTE
      invariant start <= end <= |text|
      invariant Scan(text[start..]).Some? <==> Scan(text[end..]).Some?
      invariant Scan(text[end..]).Some? ==>
        Scan(text[start..]) == Some((end - start + Scan(text[end..]).value.0, units + Scan(text[end..]).value.1))
      decreases |text| - end
    {
      units := units + 1;
      if text[end] == BACKSLASH {
        if end + 1 == |text| {
          return false, end, units;
        }
        assert text[end..][2..] == text[end + 2..];
        end := end + 2;
      } else {
        assert text[end..][1..] == text[end + 1..];
        end := end + 1;
      }
    }
    ok := true;
  }

  lemma HexInside(text: CString, ptr: nat, end: nat, i: nat)
    requires ptr + i + 4 <= end <= |text|
    ensures Hex4(text, ptr + i) == Hex4(text[ptr..end], i)
  {
    var body := text[ptr..end];
    assert body[i] == text[ptr + i] && body[i + 1] == text[ptr + i + 1];
    assert body[i + 2] == text[ptr + i + 2] && body[i + 3] == text[ptr + i + 3];
  }

  /** The closing quote, or the terminator, is no digit. */
  lemma HexCut(text: CString, i: nat)
    requires At(text, i + 3) == QUOTE || At(text, i + 3) == 0
    ensures Hex4(text, i) == 0
  {}

  lemma ShortEscapeFrom(text: CString, ptr: nat, end: nat)
    requires ptr <= end <= |text| && (end < |text| ==> text[end] == QUOTE)
    ensures ptr + 5 >= end ==> UnicodeEscape(text[ptr..end]).None?
    ensures ptr + 5 < end && (LowSurrogate(Hex4(text, ptr + 2)) || Hex4(text, ptr + 2) == 0) ==>
              UnicodeEscape(text[ptr..end]).None?
    ensures ptr + 5 < end && !LowSurrogate(Hex4(text, ptr + 2)) && Hex4(text, ptr + 2) != 0
            && !HighSurrogate(Hex4(text, ptr + 2)) ==>
              UnicodeEscape(text[ptr..end]) == Some((Hex4(text, ptr + 2), 6))
  {
    hide Hex4;
    if ptr + 5 < end {
      HexInside(text, ptr, end, 2);
      HexBound(text, ptr + 2);
    }
  }

  lemma HexBound(s: CString, i: nat)
    ensures Hex4(s, i) < 0x10000
  {}

  lemma PairFrom(text: CString, ptr: nat, end: nat)
    requires ptr + 5 < end <= |text| && (end < |text| ==> text[end] == QUOTE) && HighSurrogate(Hex4(text, ptr + 2))
    ensures (ptr + 11 > end || text[ptr + 6] != BACKSLASH || text[ptr + 7] != LOWER_U
             || !LowSurrogate(Hex4(text, ptr + 8))) ==>
              UnicodeEscape(text[ptr..end]).None?
    ensures ptr + 11 <= end && text[ptr + 6] == BACKSLASH && text[ptr + 7] == LOWER_U
            && LowSurrogate(Hex4(text, ptr + 8)) ==>
              UnicodeEscape(text[ptr..end]) == Some((Combine(Hex4(text, ptr + 2), Hex4(text, ptr + 8)), 12))
  {
    hide Hex4, Combine;
    HexInside(text, ptr, end, 2);
    if ptr + 11 == end {
      HexCut(text, ptr + 8);
    } else if ptr + 12 <= end {
      HexInside(text, ptr, end, 8);
    }
  }

  /** The code point of the escape at `ptr` and the bytes it takes, as the code tests for them. */
  method ReadEscape(text: CString, ptr: nat, end: nat) returns (r: Option<(nat, nat)>)
    requires ptr <= end <= |text| && (end < |text| ==> text[end] == QUOTE)
    ensures r == UnicodeEscape(text[ptr..end])
  {
    hide Hex4, Combine, UnicodeEscape;
    ShortEscapeFrom(text, ptr, end);
    if ptr + 5 >= end {
      return None;
    }
    var uc := Hex4(text, ptr + 2);
    if LowSurrogate(uc) || uc == 0 {
      return None;
    }
    if !HighSurrogate(uc) {
      return Some((uc, 6));
    }
    PairFrom(text, ptr, end);
    if ptr + 5 + 6 > end {
      return None;
    }
    if text[ptr + 6] != BACKSLASH || text[ptr + 7] != LOWER_U {
      return None;
    }
    var uc2 := Hex4(text, ptr + 8);
    if !LowSurrogate(uc2) {
      return None;
    }
    r := Some((Combine(uc, uc2), 12));
  }

  /** Writes the UTF-8 form of a code point, last byte first. */
  method PutUtf8(out: array<byte>, at: nat, uc: nat, ghost done: CString) returns (end: nat)
    requires Scalar(uc) && Holds(out, done) && at == |done| && at + |Utf8(uc)| <= out.Length
    modifies out
    ensures Holds(out, done + Utf8(uc)) && end == at + |Utf8(uc)|
  {
    hide Utf8;
    var len := if uc < 0x80 then 1 else if uc < 0x800 then 2 else if uc < 0x10000 then 3 else 4;
    Utf8Bytes(uc);
    var rest := uc;
    if len == 4 {
      out[at + 3] := 0x80 + rest % 0x40;
      rest := rest / 0x40;
    }
    if len >= 3 {
      out[at + 2] := 0x80 + rest % 0x40;
      rest := rest / 0x40;
    }
    if len >= 2 {
      out[at + 1] := 0x80 + rest % 0x40;
      rest := rest / 0x40;
    }
    out[at] := rest + if len == 1 then 0 else if len == 2 then 0xC0 else if len == 3 then 0xE0 else 0xF0;
    end := at + len;
    assert out[at..end] == Utf8(uc);
    assert out[..end] == out[..at] + out[at..end];
  }

  /** The bytes of the UTF-8 form, by repeated shifts of six bits. */
  lemma Utf8Bytes(uc: nat)
    requires Scalar(uc)
    ensures uc < 0x80 ==> Utf8(uc) == [uc]
    ensures 0x80 <= uc < 0x800 ==> Utf8(uc) == [0xC0 + uc / 0x40, 0x80 + uc % 0x40]
    ensures 0x800 <= uc < 0x10000 ==>
              Utf8(uc) == [0xE0 + uc / 0x40 / 0x40, 0x80 + uc / 0x40 % 0x40, 0x80 + uc % 0x40]
    ensures 0x10000 <= uc ==>
              Utf8(uc) == [0xF0 + uc / 0x40 / 0x40 / 0x40, 0x80 + uc / 0x40 / 0x40 % 0x40, 0x80 + uc / 0x40 % 0x40,
                           0x80 + uc % 0x40]
  {}

  /** The scan from `ptr` ends at `end` and counts no more than `room` units. */
  ghost predicate Ahead(text: CString, ptr: nat, end: nat, room: nat) {
    && ptr <= end <= |text| && (end < |text| ==> text[end] == QUOTE)
    && Scan(text[ptr..]).Some? && Scan(text[ptr..]).value.0 == end - ptr && Scan(text[ptr..]).value.1 <= room
  }

  lemma {:induction false} ScanStopsAtQuote(s: CString)
    ensures Scan(s).Some? && Scan(s).value.0 < |s| ==> s[Scan(s).value.0] == QUOTE
    decreases |s|
  {
    if s != [] && s[0] != QUOTE && (s[0] != BACKSLASH || |s| >= 2) {
      ScanStopsAtQuote(s[if s[0] == BACKSLASH then 2 else 1..]);
    }
  }

  lemma ByteAhead(text: CString, ptr: nat, end: nat, room: nat)
    requires Ahead(text, ptr, end, room) && ptr < end
    ensures var k := if text[ptr] == BACKSLASH then 2 else 1;
      0 < room && Ahead(text, ptr + k, end, room - 1)
  {
    var k := if text[ptr] == BACKSLASH then 2 else 1;
    assert text[ptr..][k..] == text[ptr + k..];
    ScanWithin(text[ptr + k..]);
  }

  lemma EscapeAhead(text: CString, ptr: nat, end: nat, room: nat)
    requires Ahead(text, ptr, end, room) && ptr + 1 < end && text[ptr] == BACKSLASH && text[ptr + 1] == LOWER_U
    requires UnicodeEscape(text[ptr..end]).Some?
    ensures var (uc, k) := UnicodeEscape(text[ptr..end]).value;
      |Utf8(uc)| <= room && Ahead(text, ptr + k, end, room - |Utf8(uc)|)
  {
    hide Scan, Hex4;
    var body := text[ptr..end];
    var (uc, k) := UnicodeEscape(body).value;
    assert text[ptr..][..end - ptr] == body;
    EscapeUnits(text[ptr..], end - ptr);
    assert text[ptr..][k..] == text[ptr + k..];
  }

  /** One turn of the decoding loop. */
  method DecodeUnit(text: CString, ptr: nat, end: nat, out: array<byte>, at: nat, ghost room: nat, ghost done: CString)
    returns (ok: bool, ptr1: nat, at1: nat, ghost more: CString)
    requires Ahead(text, ptr, end, room) && ptr < end && Holds(out, done) && at == |done| && at + room < out.Length
    modifies out
    ensures !ok ==> Decode(text[ptr..end]).None?
    ensures ok ==> ptr < ptr1 <= end && |more| <= room && Ahead(text, ptr1, end, room - |more|)
    ensures ok ==> Decode(text[ptr..end]) == Prepend(more, Decode(text[ptr1..end]))
    ensures ok ==> Holds(out, done + more) && at1 == at + |more|
  {
    hide Scan, Hex4, Utf8, UnicodeEscape;
    ghost var body := text[ptr..end];
    ByteAhead(text, ptr, end, room);
    ok := true;
    if text[ptr] != BACKSLASH {
      more := [text[ptr]];
      Put(out, at, text[ptr], done);
      assert body[1..] == text[ptr + 1..end];
      ptr1, at1 := ptr + 1, at + 1;
      return;
    }
    assert body[0] == text[ptr] && body[1] == text[ptr + 1];
    if text[ptr + 1] != LOWER_U {
      more := [Unescaped(text[ptr + 1])];
      Put(out, at, Unescaped(text[ptr + 1]), done);
      assert body[2..] == text[ptr + 2..end];
      ptr1, at1 := ptr + 2, at + 1;
      return;
    }
    var escape := ReadEscape(text, ptr, end);
    if escape.None? {
      return false, ptr, at, [];
    }
    var (uc, k) := escape.value;
    EscapeAhead(text, ptr, end, room);
    more := Utf8(uc);
    at1 := PutUtf8(out, at, uc, done);
    assert body[k..] == text[ptr + k..end];
    ptr1 := ptr + k;
  }

  /** The second loop of `parse_string`: whatever the literal contains, it stays within the buffer. */
  method DecodeInto(text: CString, start: nat, end: nat, out: array<byte>, ghost room: nat)
    returns (ok: bool)
    requires Ahead(text, start, end, room) && room < out.Length
    modifies out
    ensures ok <==> Decode(text[start..end]).Some?
    ensures ok ==> Text(out, Decode(text[start..end]).value)
  {
    hide Scan, Decode;
    var ptr, at := start, 0;
    ghost var done: CString, left: nat := [], room;
    PrependNothing(Decode(text[start..end]));
    while ptr < end
      invariant start <= ptr <= end && Holds(out, done) && at == |done|
      invariant Ahead(text, ptr, end, left) && at + left <= room
      invariant Decode(text[start..end]) == Prepend(done, Decode(text[ptr..end]))
      decreases end - ptr
    {
      ghost var more;
      ok, ptr, at, more := DecodeUnit(text, ptr, end, out, at, left, done);
      if !ok {
        return;
      }
      PrependTwice(done, more, Decode(text[ptr..end]));
      done, left := done + more, left - |more|;
    }
    DecodeNothing(text[ptr..end], done);
    Put(out, at, 0, done);
    ok := true;
  }

  lemma PrependNothing(r: Option<CString>)
    ensures Prepend([], r) == r
  {
    if r.Some? {
      assert [] + r.value == r.value;
    }
  }

  lemma DecodeNothing(s: CString, done: CString)
    requires s == []
    ensures Prepend(done, Decode(s)) == Some(done)
  {
    assert done + [] == done;
  }

  /** `parse_string`. */
  method ParseStringFrom(text: CString, at: nat) returns (r: Outcome<CString>)
    requires at <= |text|
    ensures Within(text, r) && Left(text, r) == ParseString(text[at..])
  {
    hide QuotesEscaped, TrailingRun;
    if At(text, at) != QUOTE {
      return Wrong(at);
    }
    var start := at + 1;
    assert text[at..][1..] == text[start..];
    ScanOverruns(text[start..]);
    var ok, end, units := FindEnd(text, start);
    if !ok {
      return Overran;
    }
    ScanStopsAtQuote(text[start..]);
    var out := new byte[units + 1];
    var decoded := DecodeInto(text, start, end, out, units);
    assert text[start..][..end - start] == text[start..end] && text[start..][end - start..] == text[end..];
    if !decoded {
      return Wrong(at);
    }
    var value := Content(out, Decode(text[start..end]).value);
    assert At(text[end..], 0) == At(text, end);
    if At(text, end) == QUOTE {
      assert text[end..][1..] == text[end + 1..];
      r := Done(value, end + 1);
    } else {
      r := Done(value, end);
    }
  }

  /** The C string at the start of an array. */
  method Content(a: array<byte>, ghost s: CString) returns (r: CString)
    requires Text(a, s)
    ensures r == s
  {
    r := [];
    var i := 0;
    ghost var text: seq<byte> := s;
    while a[i] != 0
      invariant i <= |s| && r == s[..i]
      decreases |s| - i
    {
      assert a[i] == a[..|s| + 1][i] == (text + [0])[i];
      r := r + [a[i]];
      i := i + 1;
    }
    assert a[i] == a[..|s| + 1][i] == (text + [0])[i];
  }

  // ----- numbers

  /** One of the digit loops of `parse_number`. */
  method DigitsFrom(text: CString, at: nat, n: nat) returns (value: nat, end: nat)
    requires at <= |text|
    ensures at <= end <= |text| && ReadDigits(text[at..], n) == (value, text[end..])
  {
    value, end := n, at;
    while end < |text| && IsDigit(text[end])
      invariant at <= end <= |text| && ReadDigits(text[end..], value) == ReadDigits(text[at..], n)
    {
      assert text[end..][1..] == text[end + 1..];
      value, end := value * 10 + (text[end] - ZERO), end + 1;
    }
  }

  method ExponentFrom(text: CString, at: nat) returns (value: int, end: nat)
    requires at <= |text|
    ensures at <= end <= |text| && Exponent(text[at..]) == (value, text[end..])
  {
    if At(text, at) != 101 && At(text, at) != 69 {
      return 0, at;
    }
    assert text[at..][1..] == text[at + 1..];
    if At(text, at + 1) == MINUS {
      assert text[at + 1..][1..] == text[at + 2..];
      var n, e := DigitsFrom(text, at + 2, 0);
      return -(n as int), e;
    }
    var start := at + 1;
    if At(text, at + 1) == 43 {
      assert text[at + 1..][1..] == text[at + 2..];
      start := at + 2;
    }
    value, end := DigitsFrom(text, start, 0);
  }

  method WholePartFrom(text: CString, at: nat) returns (n: nat, end: nat)
    requires at <= |text|
    ensures at <= end <= |text| && WholePart(text[at..]) == (n, text[end..])
  {
    var s1 := if At(text, at) == MINUS then at + 1 else at;
    assert At(text, at) == MINUS ==> text[at..][1..] == text[s1..];
    var s2 := if At(text, s1) == ZERO then s1 + 1 else s1;
    assert At(text, s1) == ZERO ==> text[s1..][1..] == text[s2..];
    n, end := 0, s2;
    if IsDigit(At(text, s2)) && At(text, s2) != ZERO {
      assert text[s2..][1..] == text[s2 + 1..];
      n, end := DigitsFrom(text, s2 + 1, text[s2] - ZERO);
    }
  }

  method FractionFrom(text: CString, at: nat, n: nat) returns (value: nat, end: nat, scale: int)
    requires at <= |text|
    ensures at <= end <= |text| && Fraction(text[at..], n) == (value, text[end..], scale)
  {
    value, end, scale := n, at, 0;
    if At(text, at) == DOT && IsDigit(At(text, at + 1)) {
      assert text[at..][1..] == text[at + 1..];
      value, end := DigitsFrom(text, at + 1, n);
      scale := at + 1 - end;
    }
  }

  /** `parse_number`. */
  method ParseNumberFrom(text: CString, at: nat) returns (r: Outcome<Json>)
    requires at < |text| && NumberStart(text[at..])
    ensures Within(text, r) && Left(text, r) == ParseNumber(text[at..])
  {
    hide WholePart, Fraction, Exponent, Scaled;
    var n, s3 := WholePartFrom(text, at);
    var value, s4, scale := FractionFrom(text, s3, n);
    var subscale, end := ExponentFrom(text, s4);
    r := Done(Number(Scaled(At(text, at) == MINUS, value, scale + subscale)), end);
  }

  // ----- values

  /** What remains to be read of an array after one of its items. */
  function AfterItem(s: CString): Parse<seq<Json>> {
    if At(s, 0) == COMMA then ParseItems(s[1..])
    else if At(s, 0) == RBRACKET then Parsed([], s[1..])
    else Failed(s)
  }

  /** What remains to be read of an object after one of its members. */
  function AfterMember(s: CString): Parse<seq<Member>> {
    if At(s, 0) == COMMA then ParseFields(s[1..])
    else if At(s, 0) == RBRACE then Parsed([], s[1..])
    else Failed(s)
  }

  function After<T>(xs: seq<T>, r: Parse<seq<T>>): Parse<seq<T>> {
    match r
    case Parsed(ys, rest) => Parsed(xs + ys, rest)
    case Failed(at) => Failed(at)
    case Overrun => Overrun
  }

  lemma AfterTwice<T>(xs: seq<T>, ys: seq<T>, r: Parse<seq<T>>)
    ensures After(xs, After(ys, r)) == After(xs + ys, r)
  {
    if r.Parsed? {
      assert xs + (ys + r.value) == xs + ys + r.value;
    }
  }

  lemma ItemsAfter(s: CString)
    ensures match ParseValue(Skip(s))
      case Failed(at) => ParseItems(s) == Failed(at)
      case Overrun => ParseItems(s) == Overrun
      case Parsed(x, rest) => ParseItems(s) == After([x], AfterItem(Skip(rest)))
  {
    hide Skip;
    var r := ParseValue(Skip(s));
    if r.Parsed? {
      assert [r.value] + [] == [r.value];
    }
  }

  lemma FieldsAfter(s: CString)
    ensures match ParseField(s)
      case Failed(at) => ParseFields(s) == Failed(at)
      case Overrun => ParseFields(s) == Overrun
      case Parsed(m, rest) => ParseFields(s) == After([m], AfterMember(rest))
  {
    var r := ParseField(s);
    if r.Parsed? {
      assert [r.value] + [] == [r.value];
    }
  }

  /** `parse_value`. */
  method ParseValueFrom(text: CString, at: nat) returns (r: Outcome<Json>)
    requires at <= |text|
    ensures Within(text, r) && Left(text, r) == ParseValue(text[at..])
    decreases |text| - at, 2
  {
    hide ParseString, ParseNumber, ParseItems, ParseFields, Skip;
    ghost var s := text[at..];
    StartsWithPrefix(text, at, NULL_TEXT);
    StartsWithPrefix(text, at, FALSE_TEXT);
    StartsWithPrefix(text, at, TRUE_TEXT);
    assert At(text, at) == At(s, 0);
    if StartsWith(text, at, NULL_TEXT) {
      assert s[4..] == text[at + 4..];
      return Done(Null, at + 4);
    }
    if StartsWith(text, at, FALSE_TEXT) {
      assert s[5..] == text[at + 5..];
      return Done(False, at + 5);
    }
    if StartsWith(text, at, TRUE_TEXT) {
      assert s[4..] == text[at + 4..];
      return Done(True, at + 4);
    }
    if At(text, at) == QUOTE {
      var literal := ParseStringFrom(text, at);
      match literal {
        case Done(v, end) => return Done(String(v), end);
        case Wrong(e) => return Wrong(e);
        case Overran => return Overran;
      }
    }
    if At(text, at) == MINUS || IsDigit(At(text, at)) {
      r := ParseNumberFrom(text, at);
    } else if At(text, at) == LBRACKET {
      r := ParseArrayFrom(text, at);
    } else if At(text, at) == LBRACE {
      r := ParseObjectFrom(text, at);
    } else {
      r := Wrong(at);
    }
  }

  /** `parse_array`. */
  method ParseArrayFrom(text: CString, at: nat) returns (r: Outcome<Json>)
    requires at < |text| && text[at] == LBRACKET
    ensures Within(text, r) && Left(text, r) == ParseValue(text[at..])
    decreases |text| - at, 1
  {
    hide ParseItems, Skip;
    var start := SkipFrom(text, at + 1);
    assert text[at..][1..] == text[at + 1..] && At(text, start) == At(text[start..], 0);
    if At(text, start) == RBRACKET {
      assert text[start..][1..] == text[start + 1..];
      return Done(Array([]), start + 1);
    }
    var items := ParseItemsFrom(text, start);
    match items {
      case Done(xs, end) => r := Done(Array(xs), end);
      case Wrong(e) => r := Wrong(e);
      case Overran => r := Overran;
    }
  }

  method ParseItemsFrom(text: CString, at: nat) returns (r: Outcome<seq<Json>>)
    requires at <= |text|
    ensures Within(text, r) && Left(text, r) == ParseItems(text[at..])
    decreases |text| - at, 3
  {
    hide ParseItems, ParseValue, Skip, AfterItem;
    ItemsAfter(text[at..]);
    var start := SkipFrom(text, at);
    var value := ParseValueFrom(text, start);
    match value {
      case Wrong(e) => return Wrong(e);
      case Overran => return Overran;
      case Done(x, end) =>
        var xs := [x];
        var cur := SkipFrom(text, end);
        while At(text, cur) == COMMA
          invariant at <= cur <= |text|
          invariant ParseItems(text[at..]) == After(xs, AfterItem(text[cur..]))
          decreases |text| - cur
        {
          NextItem(text, cur);
          start := SkipFrom(text, cur + 1);
          value := ParseValueFrom(text, start);
          match value {
            case Wrong(e) => return Wrong(e);
            case Overran => return Overran;
            case Done(y, e) =>
              cur := SkipFrom(text, e);
              AfterTwice(xs, [y], AfterItem(text[cur..]));
              xs := xs + [y];
          }
        }
        LastItem(text, cur, xs);
        r := if At(text, cur) == RBRACKET then Done(xs, cur + 1) else Wrong(cur);
    }
  }

  lemma NextItem(text: CString, at: nat)
    requires at < |text| && text[at] == COMMA
    ensures AfterItem(text[at..]) == ParseItems(text[at + 1..])
    ensures match ParseValue(Skip(text[at + 1..]))
      case Failed(e) => ParseItems(text[at + 1..]) == Failed(e)
      case Overrun => ParseItems(text[at + 1..]) == Overrun
      case Parsed(x, rest) => ParseItems(text[at + 1..]) == After([x], AfterItem(Skip(rest)))
  {
    hide ParseItems, ParseValue, Skip;
    assert text[at..][1..] == text[at + 1..];
    ItemsAfter(text[at + 1..]);
  }

  lemma LastItem(text: CString, at: nat, xs: seq<Json>)
    requires at <= |text| && At(text, at) != COMMA
    ensures At(text, at) == RBRACKET ==> After(xs, AfterItem(text[at..])) == Parsed(xs, text[at + 1..])
    ensures At(text, at) != RBRACKET ==> After(xs, AfterItem(text[at..])) == Failed(text[at..])
  {
    assert At(text, at) == At(text[at..], 0) && xs + [] == xs;
    if At(text, at) == RBRACKET {
      assert text[at..][1..] == text[at + 1..];
    }
  }

  /** `parse_object`. */
  method ParseObjectFrom(text: CString, at: nat) returns (r: Outcome<Json>)
    requires at < |text| && text[at] == LBRACE
    ensures Within(text, r) && Left(text, r) == ParseValue(text[at..])
    decreases |text| - at, 1
  {
    hide ParseFields, Skip;
    var start := SkipFrom(text, at + 1);
    assert text[at..][1..] == text[at + 1..] && At(text, start) == At(text[start..], 0);
    if At(text, start) == RBRACE {
      assert text[start..][1..] == text[start + 1..];
      return Done(Object([]), start + 1);
    }
    var fields := ParseFieldsFrom(text, start);
    match fields {
      case Done(ms, end) => r := Done(Object(ms), end);
      case Wrong(e) => r := Wrong(e);
      case Overran => r := Overran;
    }
  }

  method ParseFieldFrom(text: CString, at: nat) returns (r: Outcome<Member>)
    requires at <= |text|
    ensures Within(text, r) && Left(text, r) == ParseField(text[at..])
    decreases |text| - at, 3
  {
    hide ParseString, ParseValue, Skip;
    var start := SkipFrom(text, at);
    var literal := ParseStringFrom(text, start);
    match literal {
      case Wrong(e) => return Wrong(e);
      case Overran => return Overran;
      case Done(name, end) =>
        var cur := SkipFrom(text, end);
        assert At(text, cur) == At(text[cur..], 0);
        if At(text, cur) != COLON {
          return Wrong(cur);
        }
        assert text[cur..][1..] == text[cur + 1..];
        start := SkipFrom(text, cur + 1);
        var value := ParseValueFrom(text, start);
        match value {
          case Wrong(e) => return Wrong(e);
          case Overran => return Overran;
          case Done(v, e) =>
            cur := SkipFrom(text, e);
            r := Done(Member(name, v), cur);
        }
    }
  }

  method ParseFieldsFrom(text: CString, at: nat) returns (r: Outcome<seq<Member>>)
    requires at <= |text|
    ensures Within(text, r) && Left(text, r) == ParseFields(text[at..])
    decreases |text| - at, 4
  {
    hide ParseFields, ParseField, AfterMember;
    FieldsAfter(text[at..]);
    var field := ParseFieldFrom(text, at);
    match field {
      case Wrong(e) => return Wrong(e);
      case Overran => return Overran;
      case Done(m, end) =>
        var ms, cur := [m], end;
        while At(text, cur) == COMMA
          invariant at <= cur <= |text|
          invariant ParseFields(text[at..]) == After(ms, AfterMember(text[cur..]))
          decreases |text| - cur
        {
          NextMember(text, cur);
          field := ParseFieldFrom(text, cur + 1);
          match field {
            case Wrong(e) => return Wrong(e);
            case Overran => return Overran;
            case Done(y, e) =>
              cur := e;
              AfterTwice(ms, [y], AfterMember(text[cur..]));
              ms := ms + [y];
          }
        }
        LastMember(text, cur, ms);
        r := if At(text, cur) == RBRACE then Done(ms, cur + 1) else Wrong(cur);
    }
  }

  lemma NextMember(text: CString, at: nat)
    requires at < |text| && text[at] == COMMA
    ensures AfterMember(text[at..]) == ParseFields(text[at + 1..])
    ensures match ParseField(text[at + 1..])
      case Failed(e) => ParseFields(text[at + 1..]) == Failed(e)
      case Overrun => ParseFields(text[at + 1..]) == Overrun
      case Parsed(m, rest) => ParseFields(text[at + 1..]) == After([m], AfterMember(rest))
  {
    hide ParseFields, ParseField;
    assert text[at..][1..] == text[at + 1..];
    FieldsAfter(text[at + 1..]);
  }

  lemma LastMember(text: CString, at: nat, ms: seq<Member>)
    requires at <= |text| && At(text, at) != COMMA
    ensures At(text, at) == RBRACE ==> After(ms, AfterMember(text[at..])) == Parsed(ms, text[at + 1..])
    ensures At(text, at) != RBRACE ==> After(ms, AfterMember(text[at..])) == Failed(text[at..])
  {
    assert At(text, at) == At(text[at..], 0) && ms + [] == ms;
    if At(text, at) == RBRACE {
      assert text[at..][1..] == text[at + 1..];
    }
  }

  /** `cJSON_ParseWithOpts`. */
  method ParseWithOpts(text: CString, requireNullTerminated: bool) returns (r: Outcome<Json>)
    ensures Within(text, r) && Left(text, r) == ParseDocument(text, requireNullTerminated)
    ensures r.Overran? ==> EndsInBackslash(text)
  {
    hide ParseValue, Skip;
    DocumentInside(text, requireNullTerminated);
    assert text[0..] == text;
    var start := SkipFrom(text, 0);
    r := ParseValueFrom(text, start);
    if r.Done? && requireNullTerminated {
      var end := SkipFrom(text, r.end);
      assert At(text, end) == At(text[end..], 0);
      if At(text, end) != 0 {
        return Wrong(end);
      }
      r := Done(r.value, end);
    }
  }

  /** `!strncmp(value, word, length)` */
  predicate StartsWith(text: CString, at: nat, word: CString)
    requires at <= |text|
  {
    at + |word| <= |text| && text[at..at + |word|] == word
  }

  lemma StartsWithPrefix(text: CString, at: nat, word: CString)
    requires at <= |text|
    ensures StartsWith(text, at, word) <==> word <= text[at..]
  {
    if word <= text[at..] {
      assert text[at..at + |word|] == text[at..][..|word|];
    }
  }
}