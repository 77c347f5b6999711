/** The parser reads every JSON text as the tree that it denotes. */
module JsonTextParsing {
  import opened Bytes
  import opened Decimals
  import opened Numerals
  import opened Options
  import opened Parsing
  import opened Strings
  import opened Trees

  import opened T = JsonText

  // ----- strings

  lemma HexIsValue(c: Char)
    requires HexOf(c) >= 0
    ensures HexValue(c) == Some(HexOf(c)) && HexOf(c) < 16
  {}

  lemma UnitIsHex4(s: CString, i: nat)
    requires HasUnit(s, i)
    ensures Hex4(s, i) == UnitAt(s, i) < 0x10000
  {
    hide HexOf, HexValue;
    HexIsValue(s[i]);
    HexIsValue(s[i + 1]);
    HexIsValue(s[i + 2]);
    HexIsValue(s[i + 3]);
  }

  /** The digits of a number to base 64. */
  lemma Sextets(hi: nat, lo: nat)
    requires lo < 0x40
    ensures (hi * 0x40 + lo) / 0x40 == hi && (hi * 0x40 + lo) % 0x40 == lo
  {}

  lemma Utf8Exact(b: CString, u: nat)
    requires Utf8Of(b, u)
    ensures 0 < u
    ensures Scalar(u) ==> b == Utf8(u)
  {
    if 0x80 <= u < 0x800 {
      Sextets(Above(b[0], 0xC0), Above(b[1], 0x80));
    } else if 0x800 <= u < 0x10000 {
      var t := Above(b[0], 0xE0) * 0x40 + Above(b[1], 0x80);
      Sextets(t, Above(b[2], 0x80));
      Sextets(Above(b[0], 0xE0), Above(b[1], 0x80));
      assert u / 0x40 == t && u / 0x1000 == t / 0x40;
    } else if 0x10000 <= u < 0x110000 {
      FourBytes(b, u);
    }
  }

  lemma FourBytes(b: CString, u: nat)
    requires Utf8Of(b, u) && 0x10000 <= u < 0x110000
    ensures b == [0xF0 + u / 0x40000, 0x80 + u / 0x1000 % 0x40, 0x80 + u / 0x40 % 0x40, 0x80 + u % 0x40]
  {
    var t := Above(b[0], 0xF0) * 0x40 + Above(b[1], 0x80);
    var v := t * 0x40 + Above(b[2], 0x80);
    Sextets(v, Above(b[3], 0x80));
    Sextets(t, Above(b[2], 0x80));
    Sextets(Above(b[0], 0xF0), Above(b[1], 0x80));
    assert u / 0x40 == v && u / 0x1000 == v / 0x40 && u / 0x40000 == t / 0x40;
  }

  /** An escape that denotes a code point is read as that code point. */
  lemma CodePointRead(s: CString, u: nat, n: nat)
    requires CodePoint(s, u, n) && u > 0
    ensures Scalar(u) && UnicodeEscape(s) == Some((u, n)) && s[0] == BACKSLASH && s[1] == LOWER_U && |s| >= n
  {
    hide HasUnit, UnitAt, Hex4;
    UnitIsHex4(s, 2);
    UnitInside(s, 2);
    assert s[0] == s[..2][0] && s[1] == s[..2][1];
    if HighSurrogate(UnitAt(s, 2)) {
      UnitIsHex4(s, 8);
      UnitInside(s, 8);
      var high, low := UnitAt(s, 2), UnitAt(s, 8);
      assert s[6] == s[6..8][0] && s[7] == s[6..8][1];
      PairRead(s, high, low);
      assert high % 0x400 == high - 0xD800 && low % 0x400 == low - 0xDC00;
    }
  }

  lemma UnitInside(s: CString, i: nat)
    requires HasUnit(s, i)
    ensures i + 4 <= |s| && forall j | i <= j < i + 4 :: s[j] != QUOTE && s[j] != BACKSLASH
  {}

  /** One byte, or one two-character escape, is decoded. */
  lemma DecodeUnit(body: CString, c: Char, rest: CString)
    requires body != [] && (body[0] == BACKSLASH ==> |body| >= 2 && body[1] != LOWER_U)
    requires Decode(body[if body[0] == BACKSLASH then 2 else 1..]) == Some(rest)
    requires c == if body[0] == BACKSLASH then Unescaped(body[1]) else body[0]
    ensures Decode(body) == Some([c] + rest)
  {}

  lemma DecodeCodePoint(body: CString, u: nat, n: nat, rest: CString)
    requires |body| >= 2 && body[0] == BACKSLASH && body[1] == LOWER_U && UnicodeEscape(body) == Some((u, n))
    requires Decode(body[n..]) == Some(rest)
    ensures Decode(body) == Some(Utf8(u) + rest)
  {
    hide UnicodeEscape, Utf8;
  }

  lemma UnescapedIs(c: Char)
    requires c != LOWER_U
    ensures Unescaped(c) == if Escaped(c) != 0 then Escaped(c) else c
  {}

  /** The first byte or two-character escape of a literal, and the byte that it stands for. */
  lemma ContentsUnit(body: CString, s: CString, loose: bool)
    requires Contents(body, s, loose) && body != [] && (body[0] == 92 ==> |body| >= 2 && body[1] != 117)
    ensures s != [] && s[0] == (if body[0] == 92 then Unescaped(body[1]) else body[0])
    ensures Contents(body[if body[0] == 92 then 2 else 1..], s[1..], loose)
    ensures body[0] != QUOTE && s == [s[0]] + s[1..]
  {
    if body[0] == 92 {
      UnescapedIs(body[1]);
    }
  }

  /** The first code point of a literal that starts with its escape. */
  lemma ContentsPoint(body: CString, s: CString, loose: bool) returns (u: nat, n: nat, k: nat)
    requires Contents(body, s, loose) && body != [] && body[0] == 92 && !(|body| >= 2 && body[1] != 117)
    ensures CodePoint(body, u, n) && n <= |body| && k <= |s| && Utf8Of(s[..k], u) && Contents(body[n..], s[k..], loose)
    ensures (n == 6 || n == 12) && s == s[..k] + s[k..]
  {
    hide Utf8Of;
    u, n, k :| CodePoint(body, u, n) && n <= |body| && k <= |s| && Utf8Of(s[..k], u) &&
      Contents(body[n..], s[k..], loose);
  }

  lemma {:induction false} ContentsDecode(body: CString, s: CString, loose: bool)
    requires Contents(body, s, loose)
    ensures Decode(body) == Some(s)
    decreases |body|
  {
    if body != [] {
      hide Contents, Decode, CodePoint, Utf8Of, Utf8, UnicodeEscape, Unescaped;
      if body[0] == 92 && !(|body| >= 2 && body[1] != 117) {
        var u, n, k := ContentsPoint(body, s, loose);
        Utf8Exact(s[..k], u);
        CodePointRead(body, u, n);
        ContentsDecode(body[n..], s[k..], loose);
        DecodeCodePoint(body, u, n, s[k..]);
      } else {
        ContentsUnit(body, s, loose);
        ContentsDecode(body[if body[0] == 92 then 2 else 1..], s[1..], loose);
        DecodeUnit(body, s[0], s[1..]);
      }
    }
  }

  /** A byte, or a backslash and what it escapes, is stepped over. */
  lemma ScanUnit(body: CString, k: nat, more: CString)
    requires body != [] && body[0] != QUOTE && k == (if body[0] == BACKSLASH then 2 else 1) <= |body|
    requires Scan(body[k..] + more).Some?
    ensures Scan(body + more).Some? && Scan(body + more).value.0 == k + Scan(body[k..] + more).value.0
  {
    assert (body + more)[k..] == body[k..] + more;
  }

  /** Six bytes of an escape are stepped over. */
  lemma ScanSix(e: CString, more: CString)
    requires |e| == 6 && e[0] == BACKSLASH && e[1] != QUOTE && Scan(more).Some?
    requires forall j | 2 <= j < 6 :: e[j] != QUOTE && e[j] != BACKSLASH
    ensures Scan(e + more).Some? && Scan(e + more).value.0 == 6 + Scan(more).value.0
  {
    hide Scan;
    var t5 := [e[5]] + more;
    var t4 := [e[4]] + t5;
    var t3 := [e[3]] + t4;
    ScanPlain(e[5], more);
    ScanPlain(e[4], t5);
    ScanPlain(e[3], t4);
    ScanPlain(e[2], t3);
    assert e[2..] + more == [e[2]] + t3;
    ScanUnit(e, 2, more);
  }

  lemma ScanCodePoint(body: CString, u: nat, n: nat, more: CString)
    requires CodePoint(body, u, n) && n <= |body| && Scan(body[n..] + more).Some?
    ensures Scan(body + more).Some? && Scan(body + more).value.0 == n + Scan(body[n..] + more).value.0
  {
    hide Scan, UnitAt, HasUnit;
    UnitInside(body, 2);
    assert body[0] == body[..2][0] && body[1] == body[..2][1];
    if n == 12 {
      UnitInside(body, 8);
      assert body[6] == body[6..8][0] && body[7] == body[6..8][1];
      ScanSix(body[6..12], body[n..] + more);
      assert body[6..12] + (body[n..] + more) == body[6..] + more;
    }
    ScanSix(body[..6], body[6..] + more);
    assert body[..6] + (body[6..] + more) == body + more;
  }

  /** The scan stops behind the contents, at a quote or at the end of the text. */
  lemma {:induction false} ContentsScan(body: CString, s: CString, loose: bool, more: CString)
    requires Contents(body, s, loose) && (more == [] || more[0] == QUOTE)
    ensures Scan(body + more).Some? && Scan(body + more).value.0 == |body|
    decreases |body|
  {
    if body == [] {
      assert body + more == more;
    } else {
      hide Contents, Scan, CodePoint, Utf8Of, Unescaped;
      if body[0] == 92 && !(|body| >= 2 && body[1] != 117) {
        var u, n, k := ContentsPoint(body, s, loose);
        ContentsScan(body[n..], s[k..], loose, more);
        ScanCodePoint(body, u, n, more);
      } else {
        var k := if body[0] == 92 then 2 else 1;
        ContentsUnit(body, s, loose);
        ContentsScan(body[k..], s[1..], loose, more);
        ScanUnit(body, k, more);
      }
    }
  }

  lemma StringParsed(text: CString, s: CString, loose: bool, post: CString)
    requires StringText(text, s, loose)
    ensures ParseString(text + post) == Parsed(s, post)
  {
    hide Contents, Scan, Decode;
    var body, more := text[1..|text| - 1], [QUOTE] + post;
    ContentsDecode(body, s, loose);
    ContentsScan(body, s, loose, more);
    assert (text + post)[1..] == body + more;
    assert (body + more)[..|body|] == body && (body + more)[|body|..] == more && more[1..] == post;
  }

  // ----- numbers

  /** Reading on multiplies by a power of ten. */
  lemma {:induction false} OntoShifts(n: nat, s: CString)
    requires AllDigits(s)
    ensures Onto(n, s) as real == n as real * TenTo(|s|) + Weight(s) as real
  {
    if s != [] {
      var t := s[..|s| - 1];
      OntoShifts(n, t);
      var x, y, z := n as real, TenTo(|t|), Weight(t) as real;
      assert TenTo(|s|) == y * 10.0;
      assert (x * y + z) * 10.0 == x * (y * 10.0) + z * 10.0;
    }
  }

  /** Digits that do not start with a zero are read from the first on. */
  lemma DigitsFrom(digits: CString, tail: CString)
    requires AllDigits(digits) && (digits != [] ==> digits[0] != 48) && !IsDigit(At(tail, 0))
    ensures var s := digits + tail;
      (if IsDigit(At(s, 0)) && At(s, 0) != ZERO then ReadDigits(s[1..], s[0] - ZERO) else (0, s)) ==
      (Onto(0, digits), tail)
  {
    var s := digits + tail;
    if digits == [] {
      assert s == tail;
    } else {
      OntoFront(0, digits);
      assert s[1..] == digits[1..] + tail;
      ReadsOnto(digits[1..], Above(digits[0], 48), tail);
    }
  }

  /** The whole part behind the sign. */
  lemma UnsignedRead(whole: CString, tail: CString)
    requires Whole(whole, true) && (!IsDigit(At(tail, 0)) || (whole == [48] && At(tail, 0) == 48))
    ensures var s := DropByte(whole + tail, ZERO);
      (if IsDigit(At(s, 0)) && At(s, 0) != ZERO then ReadDigits(s[1..], s[0] - ZERO) else (0, s)) ==
      (Weight(whole), tail)
  {
    OntoIsWeight(whole);
    ZeroGoes(whole);
    hide Weight, ReadDigits, Onto;
    var s := DropByte(whole + tail, ZERO);
    if whole == [48] {
      assert s == tail;
    } else {
      var digits := if whole != [] && whole[0] == 48 then whole[1..] else whole;
      assert s == digits + tail;
      DigitsFrom(digits, tail);
    }
  }

  /** A zero in front adds nothing. */
  lemma ZeroGoes(whole: CString)
    requires AllDigits(whole)
    ensures whole != [] && whole[0] == 48 ==> Onto(0, whole) == Onto(0, whole[1..])
    ensures whole == [48] ==> Onto(0, whole) == 0
  {
    if whole != [] && whole[0] == 48 {
      OntoFront(0, whole);
    }
  }

  lemma WholeRead(minus: CString, whole: CString, tail: CString)
    requires (minus == [] || minus == [45]) && Whole(whole, true) && minus + whole != []
    requires !IsDigit(At(tail, 0)) || (whole == [48] && At(tail, 0) == 48)
    ensures var s := minus + whole + tail;
      NumberStart(s) && (At(s, 0) == MINUS <==> minus != []) && WholePart(s) == (Weight(whole), tail)
  {
    hide Weight, ReadDigits;
    var s := minus + whole + tail;
    assert s == minus + (whole + tail);
    assert minus == [] ==> s == whole + tail && s[0] == whole[0];
    assert DropByte(s, MINUS) == whole + tail;
    UnsignedRead(whole, tail);
  }

  lemma FractionRead(fraction: CString, n: nat, tail: CString)
    requires T.Fraction(fraction)
    requires if fraction == [] then At(tail, 0) != DOT || !IsDigit(At(tail, 1)) else !IsDigit(At(tail, 0))
    ensures var r := Parsing.Fraction(fraction + tail, n);
      if fraction == [] then r == (n, tail, 0) else r == (Onto(n, fraction[1..]), tail, 1 - |fraction|)
  {
    var s := fraction + tail;
    if fraction == [] {
      assert s == tail;
    } else {
      assert s[1..] == fraction[1..] + tail && s[1] == fraction[1..][0];
      ReadsOnto(fraction[1..], n, tail);
    }
  }

  /** The power of ten that an exponent stands for. */
  function Power(s: CString): int
    requires T.Exponent(s, true)
  {
    if s == [] then 0
    else if |s| >= 2 && s[1] == 45 then 0 - Weight(s[ExponentHead(s)..]) else Weight(s[ExponentHead(s)..])
  }

  lemma ExponentRead(exponent: CString, post: CString)
    requires T.Exponent(exponent, true)
    requires if exponent == [] then At(post, 0) != 101 && At(post, 0) != 69 else !IsDigit(At(post, 0))
    requires exponent != [] && |exponent| == 1 ==> At(post, 0) != 43 && At(post, 0) != MINUS
    ensures Parsing.Exponent(exponent + post) == (Power(exponent), post)
  {
    var s := exponent + post;
    if exponent == [] {
      assert s == post;
    } else {
      var digits := exponent[ExponentHead(exponent)..];
      ReadsOnto(digits, 0, post);
      OntoIsWeight(digits);
      assert s[1..] == exponent[1..] + post;
      if ExponentHead(exponent) == 2 {
        assert s[1..][0] == exponent[1];
        assert s[1..][1..] == digits + post;
      } else if digits == [] {
        assert s[1..] == post;
      } else {
        assert s[1..][0] == exponent[1] == digits[0];
      }
    }
  }

  // ----- powers of ten

  lemma {:induction false} PowerUp(k: int)
    ensures Pow10(k + 1) == Pow10(k) * 10.0
  {}

  lemma {:induction false} TenToPow(k: nat)
    ensures Pow10(k) == TenTo(k)
  {
    if k > 0 {
      TenToPow(k - 1);
    }
  }

  lemma {:induction false} PowShift(e: int, k: nat)
    ensures Pow10(e - k) * TenTo(k) == Pow10(e)
  {
    if k == 0 {
      assert Pow10(e) * 1.0 == Pow10(e);
    } else {
      PowShift(e, k - 1);
      PowerUp(e - k);
      Regroup(Pow10(e - k), TenTo(k - 1));
    }
  }

  lemma Regroup(x: real, y: real)
    ensures x * 10.0 * y == x * (y * 10.0)
  {}

  lemma Inverse(p: real, q: real)
    requires q > 0.0 && p * q == 1.0
    ensures p == 1.0 / q
  {}

  lemma ScaleIsPower(s: CString)
    requires T.Exponent(s, true)
    ensures Scale(s) == Pow10(Power(s))
  {
    if s != [] {
      hide Pow10, TenTo, Weight, ExponentHead;
      var k := Weight(s[ExponentHead(s)..]);
      TenToPow(k);
      NegativePower(k);
    }
  }

  lemma NegativePower(k: nat)
    ensures Pow10(0 - k) == 1.0 / TenTo(k)
  {
    PowShift(0, k);
    assert Pow10(0) == 1.0;
    Inverse(Pow10(0 - k), TenTo(k));
  }

  /** The digits of whole part and fraction, scaled once, are the number that the text spells. */
  lemma SpelledValue(negative: bool, whole: CString, n: nat, scale: int, fraction: CString, exponent: CString)
    requires AllDigits(whole) && T.Fraction(fraction) && T.Exponent(exponent, true)
    requires if fraction == [] then n == Weight(whole) && scale == 0
             else n == Onto(Weight(whole), fraction[1..]) && scale == 1 - |fraction|
    ensures Scaled(negative, n, scale + Power(exponent)) == NumberOf(negative, whole, fraction, exponent)
  {
    hide Pow10, TenTo, Onto, Weight, Power, Scale, FractionValue;
    ScaleIsPower(exponent);
    FractionScaled(Weight(whole), n, scale, fraction, Power(exponent), Scale(exponent));
    Signed(if negative then -1.0 else 1.0, n as real, Pow10(scale + Power(exponent)),
           Weight(whole) as real + FractionValue(fraction), Scale(exponent));
  }

  lemma Signed(sign: real, n: real, p: real, v: real, e: real)
    requires n * p == v * e
    ensures sign * n * p == sign * v * e
  {
    assert sign * n * p == sign * (n * p) && sign * v * e == sign * (v * e);
  }

  lemma FractionScaled(w: nat, n: nat, scale: int, fraction: CString, power: int, e: real)
    requires T.Fraction(fraction) && e == Pow10(power)
    requires if fraction == [] then n == w && scale == 0 else n == Onto(w, fraction[1..]) && scale == 1 - |fraction|
    ensures n as real * Pow10(scale + power) == (w as real + FractionValue(fraction)) * e
  {
    hide Pow10, TenTo, Onto, Weight;
    if fraction != [] {
      var k := |fraction| - 1;
      OntoShifts(w, fraction[1..]);
      PowShift(power, k);
      Rescale(w as real, Weight(fraction[1..]) as real, TenTo(k), Pow10(power - k));
    }
  }

  lemma Rescale(w: real, f: real, up: real, d: real)
    requires up > 0.0
    ensures (w * up + f) * d == (w + f / up) * (d * up)
  {
    var g := f / up;
    assert g * up == f;
    assert (w + g) * up == w * up + f;
    Shuffle(w + g, up, d);
  }

  lemma Shuffle(x: real, y: real, z: real)
    ensures x * y * z == x * (z * y)
  {}

  /** The text of a number, taken apart. */
  lemma NumberParts(text: CString, d: real, loose: bool)
    returns (minus: CString, whole: CString, fraction: CString, exponent: CString)
    requires NumberText(text, d, loose)
    ensures text == minus + whole + fraction + exponent && minus + whole != []
    ensures (minus == [] || minus == [45]) && Whole(whole, loose) && T.Fraction(fraction) && T.Exponent(exponent, loose)
    ensures Whole(whole, true) && T.Exponent(exponent, true)
    ensures d == NumberOf(minus != [], whole, fraction, exponent)
  {
    hide NumberOf;
    minus, whole, fraction, exponent :|
      && text == minus + whole + fraction + exponent
      && (minus == [] || minus == [45]) && Whole(whole, loose) && T.Fraction(fraction) && T.Exponent(exponent, loose)
      && minus + whole != [] && d == NumberOf(minus != [], whole, fraction, exponent);
  }

  /** Text that can follow a value: it does not continue a number, not even one whose exponent has no digits. */
  predicate Ends(s: CString, loose: bool) {
    EndsNumber(s) && (loose ==> At(s, 0) != 43 && At(s, 0) != MINUS)
  }

  lemma NumberParsed(text: CString, d: real, loose: bool, post: CString)
    requires NumberText(text, d, loose) && Ends(post, loose)
    ensures NumberStart(text + post) && ParseNumber(text + post) == Parsed(Number(d), post)
  {
    hide WholePart, Parsing.Fraction, Parsing.Exponent, Whole, T.Fraction, T.Exponent, FractionValue, Scale, Scaled,
         Weight, Onto, NumberText, NumberOf, Power;
    var minus, whole, fraction, exponent := NumberParts(text, d, loose);
    var tail := exponent + post;
    assert text + post == minus + whole + (fraction + tail);
    TailStarts(fraction, exponent, loose, post);
    WholeWeighs(whole);
    WholeRead(minus, whole, fraction + tail);
    FractionRead(fraction, Weight(whole), tail);
    ExponentRead(exponent, post);
    var r := Parsing.Fraction(fraction + tail, Weight(whole));
    SpelledValue(minus != [], whole, r.0, r.2, fraction, exponent);
  }

  lemma WholeWeighs(whole: CString)
    requires Whole(whole, true)
    ensures AllDigits(whole)
  {}

  lemma TailStarts(fraction: CString, exponent: CString, loose: bool, post: CString)
    requires T.Fraction(fraction) && T.Exponent(exponent, loose) && Ends(post, loose)
    ensures !IsDigit(At(fraction + (exponent + post), 0))
    ensures !IsDigit(At(exponent + post, 0)) && At(exponent + post, 0) != DOT
    ensures fraction != [] ==> AllDigits(fraction[1..])
    ensures exponent != [] && |exponent| == 1 ==> At(post, 0) != 43 && At(post, 0) != MINUS
  {
    var tail := exponent + post;
    assert exponent == [] ==> tail == post;
    assert fraction == [] ==> fraction + tail == tail;
  }

  // ----- gaps and first bytes

  /** The parser skips what may stand between tokens; comments are not for it. */
  lemma {:induction false} WhiteSkips(g: CString, post: CString)
    requires forall c | c in g :: c <= 32
    ensures Skip(g + post) == Skip(post)
    ensures forall loose :: Ends(post, loose) ==> Ends(g + post, loose)
  {
    if g == [] {
      assert g + post == post;
    } else {
      assert forall c | c in g[1..] :: c in g;
      WhiteSkips(g[1..], post);
      assert g[0] in g && (g + post)[1..] == g[1..] + post;
    }
  }

  lemma GapSkips(g: CString, layout: Layout, place: Place, post: CString)
    requires Gap(g, layout, place) && !layout.Commented?
    ensures Skip(g + post) == Skip(post)
    ensures forall loose :: Ends(post, loose) ==> Ends(g + post, loose)
  {
    WhiteSkips(g, post);
  }

  lemma NumberStarts(text: CString, d: real, loose: bool)
    requires NumberText(text, d, loose)
    ensures text != [] && ValueStart(text[0])
  {
    hide NumberOf;
    var minus, whole, fraction, exponent := NumberParts(text, d, loose);
    assert minus == [] ==> text[0] == whole[0];
  }

  lemma ValueStarts(text: CString, t: Json, layout: Layout, depth: nat)
    requires Denotes(text, t, layout, depth)
    ensures text != [] && ValueStart(text[0])
  {
    hide Items, Fields, Gap, NumberText;
    if t.Number? {
      NumberStarts(text, t.d, layout.Loose?);
    }
  }

  // ----- values

  lemma Opened(text: CString, post: CString)
    requires |text| >= 2
    ensures (text + post)[1..] == text[1..|text| - 1] + ([text[|text| - 1]] + post)
    ensures At(text + post, 0) == text[0]
  {}

  lemma LiteralParsed(text: CString, t: Json, layout: Layout, depth: nat, post: CString)
    requires Denotes(text, t, layout, depth) && (t.Null? || t.True? || t.False?)
    ensures ParseValue(text + post) == Parsed(t, post)
  {
    var s := text + post;
    assert s[|text|..] == post && s[..|text|] == text;
    assert s[0] == text[0];
  }

  lemma NumberIsParsed(s: CString)
    requires NumberStart(s)
    ensures ParseValue(s) == ParseNumber(s)
  {
    hide ParseNumber, ParseItems, ParseFields, ParseString;
  }

  lemma StringIsParsed(s: CString, v: CString, rest: CString)
    requires At(s, 0) == QUOTE && ParseString(s) == Parsed(v, rest)
    ensures ParseValue(s) == Parsed(String(v), rest)
  {
    hide ParseNumber, ParseItems, ParseFields, ParseString;
  }

  /** A text that denotes a tree is parsed to that tree, whatever follows that does not continue a number. */
  lemma {:induction false} ValueParsed(text: CString, t: Json, layout: Layout, depth: nat, post: CString)
    requires Denotes(text, t, layout, depth) && !layout.Commented? && Ends(post, layout.Loose?)
    ensures ParseValue(text + post) == Parsed(t, post)
    decreases t, 2
  {
    hide Items, Fields, Gap, NumberText, Contents, ParseValue, ParseNumber, ParseString;
    match t
    case Number(d) =>
      NumberParsed(text, d, layout.Loose?, post);
      NumberIsParsed(text + post);
    case String(s) =>
      StringParsed(text, s, layout.Loose?, post);
      StringIsParsed(text + post, s, post);
    case Array(xs) => ArrayParsed(text, xs, layout, depth, post);
    case Object(ms) => ObjectParsed(text, ms, layout, depth, post);
    case _ => LiteralParsed(text, t, layout, depth, post);
  }

  lemma {:induction false} ArrayParsed(text: CString, xs: seq<Json>, layout: Layout, depth: nat, post: CString)
    requires Denotes(text, Array(xs), layout, depth) && !layout.Commented?
    ensures ParseValue(text + post) == Parsed(Array(xs), post)
    decreases xs, 1
  {
    hide Items, Gap, ParseValue, ParseItems;
    var inner, close := text[1..|text| - 1], [RBRACKET] + post;
    Opened(text, post);
    assert close[1..] == post && Skip(close) == close;
    if xs == [] {
      GapSkips(inner, layout, Nothing, close);
    } else {
      ItemsParsed(inner, xs, layout, Nothing, depth + 1, post);
      ParseItemsSkips(Skip(inner + close), inner + close);
    }
    ParseBracketed(text + post, xs, post);
  }

  /** A comma or a closing bracket follows the gap after a value. */
  lemma EndStarts(rest: CString, last: bool, bracket: Char, post: CString)
    requires if last then rest == [] else rest != [] && rest[0] == COMMA
    requires bracket == RBRACKET || bracket == RBRACE
    ensures var end := rest + ([bracket] + post);
      && Skip(end) == end && (forall loose :: Ends(end, loose)) && At(end, 0) == (if last then bracket else COMMA)
      && end[1..] == if last then post else rest[1..] + ([bracket] + post)
  {
    var end := rest + ([bracket] + post);
    assert end[0] == if last then bracket else COMMA;
  }

  /** One item off the front of a list. */
  lemma ItemsStep(text: CString, xs: seq<Json>, more: CString, end: CString, post: CString)
    requires xs != [] && ParseValue(Skip(text)) == Parsed(xs[0], more) && Skip(more) == end
    requires if |xs| == 1 then At(end, 0) == RBRACKET && end[1..] == post
             else At(end, 0) == COMMA && ParseItems(end[1..]) == Parsed(xs[1..], post)
    ensures ParseItems(text) == Parsed(xs, post)
  {
    hide Skip, ParseValue, ParseItems;
    if |xs| == 1 {
      assert xs == [xs[0]];
      ParseLastItem(text, xs[0], more);
    } else {
      assert xs == [xs[0]] + xs[1..];
      ParseMoreItems(text, xs[0], more, xs[1..], post);
    }
  }

  lemma {:induction false} ItemsParsed(s: CString, xs: seq<Json>, layout: Layout, lead: Place, depth: nat,
                                       post: CString)
    requires xs != [] && Items(s, xs, layout, lead, depth) && !layout.Commented?
    ensures var text := s + ([RBRACKET] + post);
      ParseItems(text) == Parsed(xs, post) && Skip(text) != [] && ValueStart(Skip(text)[0])
    decreases xs, 0
  {
    hide Items, Gap, Denotes, Ends, ParseValue, ParseItems;
    var before, value, after, rest := ItemsParts(s, xs, layout, lead, depth);
    var last := |xs| == 1;
    var end := rest + ([RBRACKET] + post);
    var more := after + end;
    var text := s + ([RBRACKET] + post);
    assert text == before + (value + more);
    EndStarts(rest, last, RBRACKET, post);
    GapSkips(before, layout, lead, value + more);
    GapSkips(after, layout, Nothing, end);
    ValueStarts(value, xs[0], layout, depth);
    SkipsNothing(value, more);
    hide Skip;
    ValueParsed(value, xs[0], layout, depth, more);
    if !last {
      ItemsParsed(rest[1..], xs[1..], layout, Blank, depth, post);
    }
    ItemsStep(text, xs, more, end, post);
  }

  lemma SkipsNothing(value: CString, more: CString)
    requires value != [] && ValueStart(value[0])
    ensures Skip(value + more) == value + more && (value + more)[0] == value[0]
  {}

  lemma {:induction false} ObjectParsed(text: CString, ms: seq<Member>, layout: Layout, depth: nat, post: CString)
    requires Denotes(text, Object(ms), layout, depth) && !layout.Commented?
    ensures ParseValue(text + post) == Parsed(Object(ms), post)
    decreases ms, 1
  {
    hide Fields, Gap, ParseValue, ParseFields;
    var inner, close := text[1..|text| - 1], [RBRACE] + post;
    Opened(text, post);
    assert close[1..] == post && Skip(close) == close;
    if ms == [] {
      GapSkips(inner, layout, Line(depth), close);
    } else {
      FieldsParsed(inner, ms, layout, depth + 1, post);
      ParseFieldsSkips(Skip(inner + close), inner + close);
    }
    ParseBraced(text + post, ms, post);
  }

  lemma {:induction false} FieldParsed(f: CString, m: Member, layout: Layout, depth: nat, more: CString)
    requires Field(f, m, layout, depth) && !layout.Commented? && Ends(more, layout.Loose?)
    ensures ParseField(f + more) == Parsed(m, Skip(more)) && Skip(f + more) == f + more && At(f + more, 0) == QUOTE
    decreases m, 3
  {
    hide Gap, Field, Denotes, Contents, ParseValue, ParseString;
    var name, after, before, value := FieldParts(f, m, layout, depth);
    var tail := value + more;
    var colon := [58] + (before + tail);
    assert f + more == name + (after + colon);
    assert colon[1..] == before + tail && Skip(colon) == colon;
    StringParsed(name, m.name, layout.Loose?, after + colon);
    GapSkips(after, layout, Nothing, colon);
    GapSkips(before, layout, Tab, tail);
    ValueStarts(value, m.value, layout, depth);
    assert Skip(tail) == tail;
    ValueParsed(value, m.value, layout, depth, more);
  }

  /** One member off the front of a list. */
  lemma FieldsStep(text: CString, field: CString, ms: seq<Member>, end: CString, post: CString)
    requires ms != [] && Skip(text) == Skip(field) && ParseField(field) == Parsed(ms[0], end)
    requires if |ms| == 1 then At(end, 0) == RBRACE && end[1..] == post
             else At(end, 0) == COMMA && ParseFields(end[1..]) == Parsed(ms[1..], post)
    ensures ParseFields(text) == Parsed(ms, post)
  {
    hide Skip, ParseField, ParseFields;
    ParseFieldsSkips(text, field);
    if |ms| == 1 {
      assert ms == [ms[0]];
      ParseLastField(field, ms[0], end);
    } else {
      assert ms == [ms[0]] + ms[1..];
      ParseMoreFields(field, ms[0], end, ms[1..], post);
    }
  }

  lemma {:induction false} FieldsParsed(s: CString, ms: seq<Member>, layout: Layout, depth: nat, post: CString)
    requires ms != [] && depth > 0 && Fields(s, ms, layout, depth) && !layout.Commented?
    ensures var text := s + ([RBRACE] + post);
      ParseFields(text) == Parsed(ms, post) && At(Skip(text), 0) == QUOTE
    decreases ms, 0
  {
    hide Fields, Gap, Field, Skip, Ends, ParseField, ParseFields;
    var before, field, after, rest := FieldsParts(s, ms, layout, depth);
    var last := |ms| == 1;
    var end := rest + ([RBRACE] + post);
    var more := after + end;
    var text := s + ([RBRACE] + post);
    assert text == before + (field + more);
    EndStarts(rest, last, RBRACE, post);
    GapSkips(before, layout, Line(depth), field + more);
    GapSkips(after, layout, if last then Line(depth - 1) else Nothing, end);
    FieldParsed(field, ms[0], layout, depth, more);
    if !last {
      FieldsParsed(rest[1..], ms[1..], layout, depth, post);
    }
    FieldsStep(text, field + more, ms, end, post);
  }

  /** White space and a value are taken off the front; what follows is left over, or must be white space. */
  lemma FrontIsParsed(before: CString, value: CString, t: Json, layout: Layout, post: CString)
    requires Gap(before, layout, Nothing) && Denotes(value, t, layout, 0) && !layout.Commented?
    requires Ends(post, layout.Loose?)
    ensures ParseDocument(before + value + post, false) == Parsed(t, post)
    ensures ParseDocument(before + value + post, true) == if Skip(post) == [] then Parsed(t, []) else Failed(Skip(post))
  {
    hide Gap, Denotes, Ends, ParseValue;
    assert before + value + post == before + (value + post);
    GapSkips(before, layout, Nothing, value + post);
    ValueStarts(value, t, layout, 0);
    SkipsNothing(value, post);
    ValueParsed(value, t, layout, 0, post);
  }

  /** Every JSON text, compact, formatted or with any white space, is parsed as the tree that it denotes. */
  lemma JsonIsParsed(s: CString, t: Json, layout: Layout, wholeText: bool)
    requires Text(s, t, layout) && !layout.Commented?
    ensures ParseDocument(s, wholeText).Parsed? && ParseDocument(s, wholeText).value == t
    ensures wholeText ==> ParseDocument(s, wholeText).rest == []
  {
    hide Gap, Denotes, Text, ParseDocument;
    var before, value, after := TextParts(s, t, layout);
    assert after + [] == after;
    GapSkips(after, layout, Nothing, []);
    FrontIsParsed(before, value, t, layout, after);
  }

  /** A text denotes at most one tree. */
  lemma DenotesOnce(s: CString, t: Json, u: Json, layout: Layout)
    requires Text(s, t, layout) && Text(s, u, layout) && !layout.Commented?
    ensures t == u
  {
    hide Text, ParseDocument;
    JsonIsParsed(s, t, layout, true);
    JsonIsParsed(s, u, layout, true);
  }
}
