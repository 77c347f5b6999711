/** Decimal numerals: `%d`, the digit loops and `atoi`. */
module Numerals {
  import opened Bytes

  function Digits(n: nat): CString {
    if n < 10 then [ZERO + n] else Digits(n / 10) + [ZERO + n % 10]
  }

  function Decimal(n: int): CString {
    if n < 0 then [MINUS] + Digits(-n) else Digits(n)
  }

  /** Reads the digits at the start of `s` onto `n`: the number and the text after it. */
  function ReadDigits(s: CString, n: nat): (r: (nat, CString))
    ensures |r.1| <= |s|
  {
    if s != [] && IsDigit(s[0]) then ReadDigits(s[1..], n * 10 + (s[0] - ZERO)) else (n, s)
  }

  /** `isspace` in the C locale. */
  predicate IsSpace(c: byte) {
    c == SPACE || TAB <= c <= RETURN
  }

  /** `atoi`, for numbers that an `int` holds. */
  function Atoi(s: CString): int {
    if s != [] && IsSpace(s[0]) then Atoi(s[1..])
    else if At(s, 0) == MINUS then -(ReadDigits(s[1..], 0).0 as int)
    else ReadDigits(if At(s, 0) == 43 then s[1..] else s, 0).0
  }

  /** Reading a numeral leaves off where it ends. */
  lemma {:induction false} ReadDigitsBack(n: nat, post: CString)
    ensures ReadDigits(Digits(n) + post, 0) == ReadDigits(post, n)
    ensures IsDigit(Digits(n)[0]) && (Digits(n)[0] == ZERO <==> n == 0)
  {
    if n >= 10 {
      var d := ZERO + n % 10;
      ReadDigitsBack(n / 10, [d] + post);
      assert Digits(n) + post == Digits(n / 10) + ([d] + post);
      assert ([d] + post)[1..] == post;
    } else {
      assert (Digits(n) + post)[1..] == post;
    }
  }

  lemma AtoiDigits(n: nat)
    ensures Atoi(Digits(n)) == n
  {
    ReadDigitsBack(n, []);
    assert Digits(n) + [] == Digits(n);
  }

  lemma {:induction false} DigitsOnly(n: nat, c: byte)
    requires !IsDigit(c)
    ensures c !in Digits(n)
  {
    if n >= 10 {
      DigitsOnly(n / 10, c);
    }
  }
}
