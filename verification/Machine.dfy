/** The machine the C code runs on: unsigned words, bit masks and a byte-addressed memory.

  Words are natural numbers below a power of two; wrap-around is written out where the
  program can meet it. Memory maps the addresses that are backed by pages to bytes, and
  words are stored in it in little-endian order, as on x86-64. */
module Machine {

  const TWO_TO_THE_32: nat := 0x1_0000_0000
  const TWO_TO_THE_64: nat := 0x1_0000_0000_0000_0000
  const PAGE_SIZE: nat := 0x1000

  type Byte = b: nat | b < 0x100
  type U32 = w: nat | w < 0x1_0000_0000
  type U64 = w: nat | w < 0x1_0000_0000_0000_0000
  type Memory = map<nat, Byte>

  // ---------- words and bits ----------

  function Pow2(k: nat): (p: nat)
    ensures p > 0
  {
    if k == 0 then 1 else 2 * Pow2(k - 1)
  }

  /** The C operator `&`, bit by bit. */
  function BitAnd(x: nat, y: nat): (r: nat)
    ensures r <= x && r <= y
    decreases x
  {
    if x == 0 then 0
    else 2 * BitAnd(x / 2, y / 2) + (if x % 2 == 1 && y % 2 == 1 then 1 else 0)
  }

  /** The C operator `+` on 64-bit words. */
  function Plus(x: U64, y: U64): U64 {
    (x + y) % 0x1_0000_0000_0000_0000
  }

  /** The C operator `~` on a 64-bit word. */
  function Complement(x: U64): U64 {
    TWO_TO_THE_64 - 1 - x
  }

  lemma {:induction false} Pow2Monotone(j: nat, k: nat)
    requires j <= k
    ensures Pow2(j) <= Pow2(k)
  {
    if j < k {
      Pow2Monotone(j, k - 1);
    }
  }

  lemma Pow2At64()
    ensures Pow2(64) == TWO_TO_THE_64 && Pow2(12) == PAGE_SIZE
  {
    assert Pow2(8) == 0x100;
    assert Pow2(12) == 0x1000;
    assert Pow2(16) == 0x1_0000;
    assert Pow2(24) == 0x100_0000;
    assert Pow2(32) == 0x1_0000_0000;
    assert Pow2(40) == 0x100_0000_0000;
    assert Pow2(48) == 0x1_0000_0000_0000;
    assert Pow2(56) == 0x100_0000_0000_0000;
  }

  lemma {:induction false} Pow2Divides(j: nat, k: nat)
    requires j <= k
    ensures Pow2(k) % Pow2(j) == 0
  {
    if j < k {
      Pow2Divides(j, k - 1);
      MultipleOfMultiple(2, Pow2(k - 1), Pow2(j));
    } else {
      ModOfMultiple(1, Pow2(k));
    }
  }

  // ---------- multiples ----------

  lemma MulSmall(a: int, d: int)
    requires a > 0 && -a < a * d < a
    ensures d == 0
  {
  }

  /** Division with remainder has one answer. */
  lemma QuotientUnique(x: int, q: int, r: int, a: int)
    requires a > 0 && x == a * q + r && 0 <= r < a
    ensures x / a == q && x % a == r
  {
    var d := x / a - q;
    assert a * d == a * (x / a) - a * q;
    MulSmall(a, d);
  }

  lemma ModOfMultiple(q: int, a: int)
    requires a > 0
    ensures (a * q) % a == 0
  {
    QuotientUnique(a * q, q, 0, a);
  }

  lemma MultipleOfMultiple(k: int, x: int, a: int)
    requires a > 0 && x % a == 0
    ensures (k * x) % a == 0
  {
    var q := x / a;
    assert x == a * q;
    assert k * (a * q) == a * (k * q);
    ModOfMultiple(k * q, a);
  }

  lemma MultipleSum(x: int, y: int, a: int)
    requires a > 0 && x % a == 0 && y % a == 0
    ensures (x + y) % a == 0
  {
    var p, q := x / a, y / a;
    assert a * (p + q) == a * p + a * q;
    ModOfMultiple(p + q, a);
  }

  /** Two multiples of `a` that differ lie at least `a` apart. */
  lemma MultiplesApart(x: int, y: int, a: int)
    requires a > 0 && x % a == 0 && y % a == 0 && x < y
    ensures x + a <= y
  {
    var d := y / a - x / a;
    assert a * d == y - x;
  }

  /** The remainder by an even number, from the remainder of the half. */
  lemma HalveRemainder(x: nat, a: nat)
    requires a > 0
    ensures x % (2 * a) == 2 * ((x / 2) % a) + x % 2
  {
    var h := x / 2;
    var q, r := h / a, h % a;
    assert h == a * q + r;
    assert 2 * (a * q) == (2 * a) * q;
    QuotientUnique(x, q, 2 * r + x % 2, 2 * a);
  }

  /** Rounding down to a multiple yields the greatest one not above. */
  lemma RoundDown(x: nat, a: nat)
    requires a > 0
    ensures var r := x - x % a; r % a == 0 && 0 <= r <= x < r + a
    ensures forall y: nat :: y % a == 0 && y <= x ==> y <= x - x % a
  {
    var r := x - x % a;
    assert r == a * (x / a);
    ModOfMultiple(x / a, a);
    forall y: nat | y % a == 0 && y <= x ensures y <= r {
      if r < y {
        MultiplesApart(r, y, a);
      }
    }
  }

  // ---------- memory ----------

  ghost predicate Mapped(m: Memory, a: nat, n: nat) {
    forall i :: a <= i < a + n ==> i in m
  }

  /** The ranges [a, a+n) and [b, b+k) have no byte in common. */
  predicate Apart(a: nat, n: nat, b: nat, k: nat) {
    a + n <= b || b + k <= a
  }

  /** `m'` backs the same addresses as `m` and differs from it inside [a, a+n) at most. */
  ghost predicate SameOutside(m: Memory, m': Memory, a: nat, n: nat) {
    && m'.Keys == m.Keys
    && (forall i :: i in m && !(a <= i < a + n) ==> m'[i] == m[i])
  }

  function Load(m: Memory, a: nat, n: nat): nat
    requires Mapped(m, a, n)
    decreases n
  {
    if n == 0 then 0 else m[a] + 0x100 * Load(m, a + 1, n - 1)
  }

  function Store(m: Memory, a: nat, v: nat, n: nat): (m': Memory)
    requires Mapped(m, a, n)
    ensures SameOutside(m, m', a, n)
    decreases n
  {
    if n == 0 then m else Store(m[a := v % 0x100], a + 1, v / 0x100, n - 1)
  }

  function Load64(m: Memory, a: nat): (v: U64)
    requires Mapped(m, a, 8)
  {
    LoadBound(m, a, 8);
    Load(m, a, 8)
  }

  function Store64(m: Memory, a: nat, v: U64): (m': Memory)
    requires Mapped(m, a, 8)
    ensures SameOutside(m, m', a, 8)
    ensures Load64(m', a) == v
  {
    LoadOfStore(m, a, v, 8);
    Store(m, a, v, 8)
  }

  function Load32(m: Memory, a: nat): (v: U32)
    requires Mapped(m, a, 4)
  {
    LoadBound(m, a, 4);
    Load(m, a, 4)
  }

  function Store32(m: Memory, a: nat, v: U32): (m': Memory)
    requires Mapped(m, a, 4)
    ensures SameOutside(m, m', a, 4)
    ensures Load32(m', a) == v
  {
    LoadOfStore(m, a, v, 4);
    Store(m, a, v, 4)
  }

  function Pow256(n: nat): (p: nat)
    ensures p > 0
    ensures n == 4 ==> p == TWO_TO_THE_32
    ensures n == 8 ==> p == TWO_TO_THE_64
  {
    if n == 0 then 1
    else if n == 4 then TWO_TO_THE_32
    else if n == 8 then TWO_TO_THE_64
    else 0x100 * Pow256(n - 1)
  }

  lemma Pow256Step(n: nat)
    requires 0 < n <= 8
    ensures Pow256(n) == 0x100 * Pow256(n - 1)
  {
    assert Pow256(3) == 0x100_0000 && Pow256(7) == 0x100_0000_0000_0000;
  }

  lemma {:induction false} LoadBound(m: Memory, a: nat, n: nat)
    requires n <= 8 && Mapped(m, a, n)
    ensures Load(m, a, n) < Pow256(n)
    decreases n
  {
    if n > 0 {
      LoadBound(m, a + 1, n - 1);
      Pow256Step(n);
    }
  }

  /** A word that fits reads back as it was written. */
  lemma {:induction false} LoadOfStore(m: Memory, a: nat, v: nat, n: nat)
    requires n <= 8 && Mapped(m, a, n) && v < Pow256(n)
    ensures Load(Store(m, a, v, n), a, n) == v
    decreases n
  {
    if n > 0 {
      Pow256Step(n);
      LoadOfStore(m[a := v % 0x100], a + 1, v / 0x100, n - 1);
    }
  }

  /** A word is determined by its own bytes, wherever they lie. */
  lemma {:induction false} LoadCongruence(m: Memory, m': Memory, a: nat, b: nat, n: nat)
    requires Mapped(m, a, n) && Mapped(m', b, n)
    requires forall i :: a <= i < a + n ==> m[i] == m'[i - a + b]
    ensures Load(m, a, n) == Load(m', b, n)
    decreases n
  {
    if n > 0 {
      LoadCongruence(m, m', a + 1, b + 1, n - 1);
    }
  }

  /** A word apart from the range that changed keeps its value. */
  lemma LoadFrame(m: Memory, m': Memory, a: nat, n: nat, w: nat, k: nat)
    requires SameOutside(m, m', a, n) && Mapped(m, w, k) && Apart(a, n, w, k)
    ensures Mapped(m', w, k) && Load(m', w, k) == Load(m, w, k)
  {
    forall i | w <= i < w + k ensures i in m' {
      assert i in m;
    }
    LoadCongruence(m, m', w, w, k);
  }

  /** A word's bytes in memory, least significant first. */
  lemma LittleEndian(m: Memory, a: nat, b: seq<nat>)
    requires Mapped(m, a, 8) && |b| == 8 && forall i :: 0 <= i < 8 ==> b[i] == m[a + i]
    ensures Load64(m, a) ==
            b[0] + 0x100 * b[1] + 0x1_0000 * b[2] + 0x100_0000 * b[3] + 0x1_0000_0000 * b[4]
            + 0x100_0000_0000 * b[5] + 0x1_0000_0000_0000 * b[6] + 0x100_0000_0000_0000 * b[7]
    ensures Load32(m, a) == b[0] + 0x100 * b[1] + 0x1_0000 * b[2] + 0x100_0000 * b[3]
  {
    BytesOfWord(m, a, b, 0, 4);
    BytesOfWord(m, a, b, 0, 8);
  }

  /** The number with the given digits in base 256, from digit i on. */
  function Digits256(b: seq<nat>, i: nat, n: nat): nat
    requires i + n <= |b|
    decreases n
  {
    if n == 0 then 0 else b[i] + 0x100 * Digits256(b, i + 1, n - 1)
  }

  lemma {:induction false} BytesOfWord(m: Memory, a: nat, b: seq<nat>, i: nat, n: nat)
    requires i + n <= |b| && Mapped(m, a + i, n) && forall j :: i <= j < i + n ==> b[j] == m[a + j]
    ensures Load(m, a + i, n) == Digits256(b, i, n)
    decreases n
  {
    if n > 0 {
      assert b[i] == m[a + i];
      BytesOfWord(m, a, b, i + 1, n - 1);
    }
  }

  predicate Within(i: nat, a: nat, n: nat) {
    a <= i < a + n
  }

  /** Fresh anonymous pages are zero-filled. */
  function ZeroPages(base: nat, size: nat): (m: Memory)
    ensures forall i :: i in m <==> base <= i < base + size
    ensures forall i :: i in m ==> m[i] == 0
  {
    map i: nat | base <= i < base + size && Within(i, base, size) :: 0
  }

  lemma {:induction false} LoadZero(m: Memory, a: nat, n: nat)
    requires Mapped(m, a, n) && forall i :: a <= i < a + n ==> m[i] == 0
    ensures Load(m, a, n) == 0
    decreases n
  {
    if n > 0 {
      LoadZero(m, a + 1, n - 1);
    }
  }
}
