/** The number printers of loader/loader.h: digit loops that move a pointer down a 20-byte buffer.
  A method returns what the C function writes to standard output. */
module Printers {
  import opened Machine
  import opened Digits

  const BUF_SIZE: nat := 20
  const NUL: char := 0 as char

  /** print_string: everything up to the terminator. */
  method PrintString(str: array<char>, p: nat, ghost end: nat) returns (out: string)
    requires p <= end < str.Length && str[end] == NUL
    requires forall i :: p <= i < end ==> str[i] != NUL
    ensures out == str[p..end]
  {
    var str_len := 0;
    while str[p + str_len] != NUL
      invariant p + str_len <= end
      decreases end - str_len
    {
      str_len := str_len + 1;
    }
    out := str[p..p + str_len];
  }

  /** A digit loop of print_uint and print_int: it leaves the digits of `number` right before the
    terminator. The buffer holds nineteen digits; the loop is not `ok` if it comes to a twentieth,
    which C would write in front of the buffer. */
  method DigitLoop(number: nat, buf: array<char>) returns (ok: bool, p: nat)
    requires buf.Length == BUF_SIZE && buf[BUF_SIZE - 1] == NUL
    modifies buf
    ensures ok <==> number < Power(10, BUF_SIZE - 1)
    ensures ok ==> p < BUF_SIZE - 1 && buf[BUF_SIZE - 1] == NUL
    ensures ok ==> buf[p..BUF_SIZE - 1] == Padded(number, 10, 1)
  {
    var n: nat := number;
    p := BUF_SIZE - 1;
    assert buf[p..BUF_SIZE - 1] == "";
    while true
      invariant 0 <= p <= BUF_SIZE - 1
      invariant number < Power(10, BUF_SIZE - 1) <==> n < Power(10, p)
      invariant p < BUF_SIZE - 1 ==> n > 0
      invariant buf[BUF_SIZE - 1] == NUL
      invariant Padded(number, 10, 1) == Padded(n, 10, if p == BUF_SIZE - 1 then 1 else 0) + buf[p..BUF_SIZE - 1]
      decreases p
    {
      if p == 0 {
        return false, p;
      }
      ghost var q, r, w := PaddedUnfold(n, 10, if p == BUF_SIZE - 1 then 1 else 0);
      ghost var tail := buf[p..BUF_SIZE - 1];
      DivideBound(n, 10, Power(10, p - 1));
      p := p - 1;
      buf[p] := DigitChar(n % 10);
      assert buf[p..BUF_SIZE - 1] == [DigitChar(r)] + tail;
      n := n / 10;
      if !(n > 0) {
        assert Padded(0, 10, 0) == "";
        break;
      }
    }
    ok := true;
  }

  lemma NoDigitIsNul(n: nat, base: nat, width: nat)
    requires 2 <= base <= 16
    ensures forall i :: 0 <= i < |Padded(n, base, width)| ==> Padded(n, base, width)[i] != NUL
  {
    PaddedDigits(n, base, width);
  }

  lemma TenToThe19()
    ensures Power(10, 19) == 10_000_000_000_000_000_000
  {
    assert Power(10, 5) == 100_000;
    assert Power(10, 10) == 10_000_000_000;
    assert Power(10, 15) == 1_000_000_000_000_000;
  }

  /** print_uint, which stays inside its buffer exactly for the numbers below 10^19. */
  method PrintUint(number: U64) returns (ok: bool, out: string)
    ensures ok <==> number < 10_000_000_000_000_000_000
    ensures ok ==> out == Padded(number, 10, 1)
  {
    TenToThe19();
    var buf := new char[BUF_SIZE];
    buf[19] := NUL;
    var p;
    ok, p := DigitLoop(number, buf);
    if !ok {
      return false, "";
    }
    NoDigitIsNul(number, 10, 1);
    assert forall i :: p <= i < BUF_SIZE - 1 ==> buf[i] == buf[p..BUF_SIZE - 1][i - p];
    out := PrintString(buf, p, BUF_SIZE - 1);
  }

  /** print_int. The negation overflows for the least 64-bit integer, which C leaves undefined. */
  method PrintInt(number: int) returns (out: string)
    requires -0x8000_0000_0000_0000 < number < 0x8000_0000_0000_0000
    ensures out == if number < 0 then "-" + Padded(-number, 10, 1) else Padded(number, 10, 1)
  {
    TenToThe19();
    out := "";
    var n := number;
    if n < 0 {
      out := "-";
      n := -n;
    }
    var buf := new char[BUF_SIZE];
    buf[19] := NUL;
    var _, p := DigitLoop(n, buf);
    NoDigitIsNul(n, 10, 1);
    assert forall i :: p <= i < BUF_SIZE - 1 ==> buf[i] == buf[p..BUF_SIZE - 1][i - p];
    var digits := PrintString(buf, p, BUF_SIZE - 1);
    out := out + digits;
  }

  /** The C operator `>>` on an unsigned number. */
  function ShiftRight(n: nat, i: nat): nat {
    if i == 0 then n else ShiftRight(n / 2, i - 1)
  }

  lemma ShiftByNone(n: nat)
    ensures ShiftRight(n, 0) == n
  {
  }

  /** The loop of print_hex: sixteen digits, from the lowest four bits up. */
  method HexLoop(number: U64, buf: array<char>) returns (p: nat)
    requires buf.Length == BUF_SIZE && buf[BUF_SIZE - 1] == NUL
    modifies buf
    ensures p == BUF_SIZE - 1 - 16 && buf[BUF_SIZE - 1] == NUL
    ensures buf[p..BUF_SIZE - 1] == Padded(number, 16, 16)
  {
    hide Padded, ShiftRight;
    p := BUF_SIZE - 1;
    var i := 0;
    ShiftByNone(number);
    assert buf[p..BUF_SIZE - 1] == "";
    while i != 64
      invariant 0 <= i <= 64 && i % 4 == 0 && p == BUF_SIZE - 1 - i / 4
      invariant buf[BUF_SIZE - 1] == NUL
      invariant Padded(number, 16, 16) == Padded(ShiftRight(number, i), 16, 16 - i / 4) + buf[p..BUF_SIZE - 1]
      decreases 64 - i
    {
      ghost var tail := buf[p..BUF_SIZE - 1];
      var shifted := ShiftRight(number, i);
      ghost var q, r, w := PaddedUnfold(shifted, 16, 16 - i / 4);
      ShiftByFour(number, i);
      p := p - 1;
      buf[p] := DigitChar(shifted % 16);
      assert buf[p..BUF_SIZE - 1] == [DigitChar(r)] + tail;
      i := i + 4;
    }
    ShiftAllOut(number);
  }

  /** print_hex */
  method PrintHex(number: U64) returns (out: string)
    ensures out == "0x" + Padded(number, 16, 16)
  {
    var buf := new char[BUF_SIZE];
    buf[19] := NUL;
    var p := HexLoop(number, buf);
    NoDigitIsNul(number, 16, 16);
    assert forall i :: p <= i < BUF_SIZE - 1 ==> buf[i] == buf[p..BUF_SIZE - 1][i - p];
    var digits := PrintString(buf, p, BUF_SIZE - 1);
    out := "0x" + digits;
  }

  lemma {:induction false} ShiftByFour(n: nat, i: nat)
    ensures ShiftRight(n, i) / 16 == ShiftRight(n, i + 4)
    decreases i
  {
    if i > 0 {
      ShiftByFour(n / 2, i - 1);
    } else {
      var a, b := n / 2, n / 2 / 2;
      var c := b / 2;
      assert ShiftRight(n, 4) == ShiftRight(a, 3) && ShiftRight(a, 3) == ShiftRight(b, 2);
      assert ShiftRight(b, 2) == ShiftRight(c, 1) && ShiftRight(c, 1) == ShiftRight(c / 2, 0);
      assert n / 16 == c / 2;
    }
  }

  lemma {:induction false} ShiftToZero(n: nat, i: nat)
    requires n < Pow2(i)
    ensures ShiftRight(n, i) == 0
  {
    if i > 0 {
      ShiftToZero(n / 2, i - 1);
    }
  }

  lemma ShiftAllOut(n: U64)
    ensures ShiftRight(n, 64) == 0 && Padded(0, 16, 0) == ""
  {
    Pow2At64();
    ShiftToZero(n, 64);
  }

  /** The numbers that fit are those of at most nineteen digits. The larger 64-bit numbers have
    twenty, 10^19 being the first of them. */
  lemma UintFitsBuffer(n: U64)
    ensures |Padded(n, 10, 1)| <= BUF_SIZE - 1 <==> n < 10_000_000_000_000_000_000
    ensures |Padded(n, 10, 1)| <= BUF_SIZE
    ensures |Padded(10_000_000_000_000_000_000, 10, 1)| == BUF_SIZE
  {
    TenToThe19();
    assert Power(10, 20) == 10 * Power(10, 19);
    DigitCount(n, 10, 1, 19);
    DigitCount(n, 10, 1, 20);
    DigitCount(10_000_000_000_000_000_000, 10, 1, 19);
    DigitCount(10_000_000_000_000_000_000, 10, 1, 20);
  }

  /** Every 64-bit number has at most sixteen hexadecimal digits, so print_hex writes just sixteen. */
  lemma HexHasSixteenDigits(n: U64)
    ensures |Padded(n, 16, 16)| == 16
  {
    assert Power(16, 4) == 0x1_0000;
    assert Power(16, 8) == 0x1_0000_0000;
    assert Power(16, 12) == 0x1_0000_0000_0000;
    assert Power(16, 16) == TWO_TO_THE_64;
    DigitCount(n, 16, 16, 16);
  }
}
