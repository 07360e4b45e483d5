/** Numbers as text: the digit strings that the loader prints and the kernel writes, and the digit
  loops of loader/stack.c as functions on the characters still to be read. */
module Digits {
  import opened Machine

  /** The characters of a file are bytes. */
  predicate Bytes(s: string) {
    forall i :: 0 <= i < |s| ==> s[i] as int < 0x100
  }

  /** A byte as the C program's `char`, which is signed. */
  function SignedChar(c: char): int {
    if c as int < 0x80 then c as int else c as int - 0x100
  }

  /** The character that a reader is at, as the C program keeps it in `last_char`: -1 at the end of
    the file, and also at a byte 0xff. */
  function Cur(s: string): int {
    if s == "" then -1 else SignedChar(s[0])
  }

  /** What is left after reading one more character. At the end of the file nothing changes. */
  function Adv(s: string): string {
    if s == "" then "" else s[1..]
  }

  // ---------- reading ----------

  predicate CharIsHex(ch: int) {
    || '0' as int <= ch <= '9' as int
    || 'a' as int <= ch <= 'f' as int
    || 'A' as int <= ch <= 'F' as int
  }

  predicate CharIsDec(ch: int) {
    '0' as int <= ch <= '9' as int
  }

  function CharToHex(ch: int): int {
    if ch <= '9' as int then ch - '0' as int else ch - 'a' as int + 10
  }

  /** read_hex: the value of the leading hexadecimal digits in 64 bits, and the text behind them. */
  function ReadHex(s: string, acc: U64): (r: (U64, string))
    ensures |r.1| <= |s|
    ensures |r.1| < |s| <==> CharIsHex(Cur(s))
  {
    if CharIsHex(Cur(s)) then ReadHex(Adv(s), (acc * 16 + CharToHex(Cur(s))) % TWO_TO_THE_64)
    else (acc, s)
  }

  /** read_dec */
  function ReadDec(s: string, acc: U64): (r: (U64, string))
    ensures |r.1| <= |s|
    ensures |r.1| < |s| <==> CharIsDec(Cur(s))
  {
    if CharIsDec(Cur(s)) then ReadDec(Adv(s), (acc * 10 + (Cur(s) - '0' as int)) % TWO_TO_THE_64)
    else (acc, s)
  }

  /** Upper-case digits are taken for digits, but their values are too small by 32: 'A' counts -22. */
  lemma UpperCaseDigits(c: char, s: string)
    requires 'A' <= c <= 'F'
    ensures CharIsHex(Cur([c] + s)) && CharToHex(Cur([c] + s)) == c as int - 'A' as int - 22
  {
  }

  // ---------- writing ----------

  function DigitChar(d: nat): char
    requires d < 16
  {
    if d < 10 then ('0' as int + d) as char else ('a' as int + d - 10) as char
  }

  /** The digits of `n`, most significant first, padded with zeros to at least `width` digits. */
  function Padded(n: nat, base: nat, width: nat): (ds: string)
    requires 2 <= base <= 16
    ensures |ds| >= width
    decreases n, width
  {
    if n == 0 && width == 0 then ""
    else Padded(n / base, base, if width == 0 then 0 else width - 1) + [DigitChar(n % base)]
  }

  /** The value of a digit string, in 64 bits. */
  function Value(ds: string, base: nat, acc: U64): U64 {
    if ds == "" then acc else Value(ds[1..], base, (acc * base + DigitValue(ds[0])) % TWO_TO_THE_64)
  }

  function DigitValue(c: char): nat {
    if '0' <= c <= '9' then c as int - '0' as int
    else if 'a' <= c <= 'f' then c as int - 'a' as int + 10
    else 0
  }

  predicate IsDigitOf(c: char, base: nat) {
    || ('0' <= c <= '9' && c as int < '0' as int + base)
    || ('a' <= c <= 'f' && c as int < 'a' as int + base - 10)
  }

  lemma {:induction false} PaddedDigits(n: nat, base: nat, width: nat)
    requires 2 <= base <= 16
    ensures forall i :: 0 <= i < |Padded(n, base, width)| ==> IsDigitOf(Padded(n, base, width)[i], base)
    decreases n, width
  {
    if n > 0 || width > 0 {
      var q, r, w := PaddedUnfold(n, base, width);
      hide Padded;
      PaddedDigits(q, base, w);
    }
  }

  lemma {:induction false} ValueAppend(ds: string, c: char, base: nat, acc: U64)
    ensures Value(ds + [c], base, acc) == (Value(ds, base, acc) * base + DigitValue(c)) % TWO_TO_THE_64
    decreases |ds|
  {
    if ds == "" {
      assert ds + [c] == [c];
    } else {
      assert (ds + [c])[1..] == ds[1..] + [c];
      ValueAppend(ds[1..], c, base, (acc * base + DigitValue(ds[0])) % TWO_TO_THE_64);
    }
  }

  /** The last digit and the number in front of it. */
  lemma PaddedUnfold(n: nat, base: nat, width: nat) returns (q: nat, r: nat, w: nat)
    requires 2 <= base <= 16 && (n > 0 || width > 0)
    ensures r < base && q * base + r == n && w == if width == 0 then 0 else width - 1
    ensures q <= n && (n > 0 ==> q < n) && (n == 0 ==> q == 0)
    ensures q == n / base && r == n % base
    ensures Padded(n, base, width) == Padded(q, base, w) + [DigitChar(r)]
  {
    q, r, w := n / base, n % base, if width == 0 then 0 else width - 1;
    QuotientSmaller(n, base);
  }

  lemma QuotientSmaller(n: nat, base: nat)
    requires 2 <= base
    ensures (n / base) * base + n % base == n && n % base < base
    ensures n / base <= n && (n > 0 ==> n / base < n)
  {
    var q := n / base;
    assert n == base * q + n % base;
    if q > 0 {
      assert 2 * q <= base * q;
    }
  }

  /** The digits of a 64-bit number denote it, whatever the padding. */
  lemma {:induction false} ValueOfPadded(n: U64, base: nat, width: nat)
    requires 2 <= base <= 16
    ensures Value(Padded(n, base, width), base, 0) == n
    decreases n, width
  {
    if n > 0 || width > 0 {
      var q, r, w := PaddedUnfold(n, base, width);
      hide Padded;
      ValueOfPadded(q, base, w);
      hide Value;
      ValueAppend(Padded(q, base, w), DigitChar(r), base, 0);
      assert DigitValue(DigitChar(r)) == r;
    }
  }

  lemma {:induction false} ReadHexDigits(ds: string, rest: string, acc: U64)
    requires forall i :: 0 <= i < |ds| ==> IsDigitOf(ds[i], 16)
    requires !CharIsHex(Cur(rest))
    ensures ReadHex(ds + rest, acc) == (Value(ds, 16, acc), rest)
    decreases |ds|
  {
    if ds == "" {
      assert ds + rest == rest;
    } else {
      assert IsDigitOf(ds[0], 16);
      assert (ds + rest)[1..] == ds[1..] + rest;
      ReadHexDigits(ds[1..], rest, (acc * 16 + DigitValue(ds[0])) % TWO_TO_THE_64);
    }
  }

  lemma {:induction false} ReadDecDigits(ds: string, rest: string, acc: U64)
    requires forall i :: 0 <= i < |ds| ==> IsDigitOf(ds[i], 10)
    requires !CharIsDec(Cur(rest))
    ensures ReadDec(ds + rest, acc) == (Value(ds, 10, acc), rest)
    decreases |ds|
  {
    if ds == "" {
      assert ds + rest == rest;
    } else {
      assert IsDigitOf(ds[0], 10);
      assert (ds + rest)[1..] == ds[1..] + rest;
      ReadDecDigits(ds[1..], rest, (acc * 10 + DigitValue(ds[0])) % TWO_TO_THE_64);
    }
  }

  /** Reading the hexadecimal digits of any 64-bit number gives the number back and stops behind
    them, for any padding, print_hex's sixteen digits and the kernel's eight among them. */
  lemma HexRoundTrip(n: U64, width: nat, rest: string)
    requires width > 0 && !CharIsHex(Cur(rest))
    ensures ReadHex(Padded(n, 16, width) + rest, 0) == (n, rest)
    ensures CharIsHex(Cur(Padded(n, 16, width) + rest))
  {
    PaddedDigits(n, 16, width);
    ValueOfPadded(n, 16, width);
    ReadHexDigits(Padded(n, 16, width), rest, 0);
    assert IsDigitOf(Padded(n, 16, width)[0], 16);
  }

  /** The same for decimal digits. Digits of a number beyond 64 bits are still consumed. */
  lemma DecRoundTrip(n: nat, rest: string)
    requires !CharIsDec(Cur(rest))
    ensures ReadDec(Padded(n, 10, 1) + rest, 0).1 == rest
    ensures n < TWO_TO_THE_64 ==> ReadDec(Padded(n, 10, 1) + rest, 0).0 == n
    ensures CharIsDec(Cur(Padded(n, 10, 1) + rest))
  {
    PaddedDigits(n, 10, 1);
    if n < TWO_TO_THE_64 {
      ValueOfPadded(n, 10, 1);
    }
    ReadDecDigits(Padded(n, 10, 1), rest, 0);
    assert IsDigitOf(Padded(n, 10, 1)[0], 10);
  }

  // ---------- how many digits ----------

  function Power(base: nat, k: nat): (p: nat)
    requires base > 0
    ensures p > 0
  {
    if k == 0 then 1 else base * Power(base, k - 1)
  }

  /** A number has at most k digits exactly if it is below base^k. */
  lemma {:induction false} DigitCount(n: nat, base: nat, width: nat, k: nat)
    requires 2 <= base <= 16 && width <= k
    ensures |Padded(n, base, width)| <= k <==> n < Power(base, k)
    decreases k
  {
    if n > 0 || width > 0 {
      var q, r, w := PaddedUnfold(n, base, width);
      hide Padded;
      if k > 0 {
        DigitCount(q, base, w, k - 1);
        DivideBound(n, base, Power(base, k - 1));
      }
    }
  }

  lemma DivideBound(n: nat, base: nat, p: nat)
    requires base > 0
    ensures n / base < p <==> n < base * p
  {
    var q, r := n / base, n % base;
    assert n == base * q + r;
    if q < p {
      assert base * (q + 1) <= base * p;
    } else {
      assert base * p <= base * q;
    }
  }
}
