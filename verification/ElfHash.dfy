/** The symbol hash of loader/loader.c, which is computed in 64-bit words, against the one that
  chapter 5 of the System V gABI (Hash Table) defines with 32-bit words. */
module ElfHash {

  // ---------- the gABI's hash ----------

  /** The body of the gABI's loop: shift in a character, fold the top four bits in and clear them. */
  function GabiStep(h: bv32, c: bv8): bv32 {
    GabiFold((h << 4) + c as bv32)
  }

  function GabiFold(h: bv32): bv32 {
    var g := h & 0xf000_0000;
    (if g != 0 then h ^ (g >> 24) else h) & !g
  }

  function GabiHash(name: seq<bv8>): bv32 {
    if name == [] then 0 else GabiStep(GabiHash(name[..|name| - 1]), name[|name| - 1])
  }

  // ---------- the program's hash ----------

  /** The operations of the program's loop, on 64-bit words. */
  function Sum(h: bv64, c: bv8): bv64 {
    (h << 4) + c as bv64
  }

  function Top(h: bv64): bv64 {
    h & 0xf000_0000
  }

  function Xor24(h: bv64, g: bv64): bv64 {
    h ^ (g >> 24)
  }

  function Low28(h: bv64): (r: bv64)
    ensures r < 0x1000_0000
  {
    h & 0x0fff_ffff
  }

  /** The body of the loop. */
  function Step(h: bv64, c: bv8): bv64 {
    var h := Sum(h, c);
    var g := Top(h);
    Low28(if g != 0 then Xor24(h, g) else h)
  }

  // ---------- they agree ----------

  function Wide(t: bv32): bv64 {
    t as bv64
  }

  /** The low 32 bits of `s` are those of `t`. */
  predicate Same(s: bv64, t: bv32) {
    s & 0xffff_ffff == t as bv64
  }

  predicate NothingToFold(t: bv32) {
    t & 0xf000_0000 == 0
  }

  function Folded(t: bv32): bv32 {
    t ^ ((t & 0xf000_0000) >> 24)
  }

  function Lowest28(t: bv32): bv32 {
    t & 0x0fff_ffff
  }

  lemma GabiFoldIdle(t: bv32)
    requires NothingToFold(t)
    ensures GabiFold(t) == Lowest28(t)
  {
  }

  lemma GabiFoldIs(t: bv32)
    requires t & 0xf000_0000 != 0
    ensures GabiFold(t) == (t ^ ((t & 0xf000_0000) >> 24)) & !(t & 0xf000_0000)
  {
  }

  lemma ClearedIsLow(t: bv32)
    ensures (t ^ ((t & 0xf000_0000) >> 24)) & !(t & 0xf000_0000) == (t ^ ((t & 0xf000_0000) >> 24)) & 0x0fff_ffff
  {
  }

  lemma GabiFoldBusy(t: bv32)
    requires !NothingToFold(t)
    ensures GabiFold(t) == Lowest28(Folded(t))
  {
    GabiFoldIs(t);
    ClearedIsLow(t);
    hide GabiFold;
  }

  function Sum32(k: bv32, c: bv8): bv32 {
    (k << 4) + c as bv32
  }

  lemma GabiStepIs(k: bv32, c: bv8)
    ensures GabiStep(k, c) == GabiFold(Sum32(k, c))
  {
    hide GabiFold;
  }

  lemma SumsAgreeBits(h: bv64, k: bv32, c: bv8)
    requires h == k as bv64
    ensures ((h << 4) + c as bv64) & 0xffff_ffff == ((k << 4) + c as bv32) as bv64
  {
  }

  lemma SumsAgree(h: bv64, k: bv32, c: bv8)
    requires h == k as bv64
    ensures Same(Sum(h, c), Sum32(k, c))
  {
    SumsAgreeBits(h, k, c);
  }

  lemma TopsAgree(s: bv64, t: bv32)
    requires Same(s, t)
    ensures Top(s) == 0 <==> NothingToFold(t)
  {
  }

  lemma FoldedAgree(s: bv64, t: bv32)
    requires Same(s, t)
    ensures Same(Xor24(s, Top(s)), Folded(t))
  {
  }

  lemma LowsAgree(s: bv64, t: bv32)
    requires Same(s, t)
    ensures Low28(s) == Wide(Lowest28(t))
  {
  }

  /** The 64-bit sum keeps a carry out of bit 31 until the mask at the end, the 32-bit one loses it
    at once; the outcome is the same, for any hash value and character. */
  lemma StepsAgree(h: bv64, k: bv32, c: bv8)
    requires h == k as bv64
    ensures Step(h, c) == Wide(GabiStep(k, c)) < 0x1000_0000
  {
    hide Sum, Sum32, Wide, Top, Xor24, Low28, Same, NothingToFold, Folded, Lowest28, GabiFold, GabiStep;
    GabiStepIs(k, c);
    SumsAgree(h, k, c);
    FoldsAgree(Sum(h, c), Sum32(k, c));
  }

  lemma WideStepsAgree(h: bv64, k: bv32, c: bv8)
    requires h == Wide(k)
    ensures Step(h, c) == Wide(GabiStep(k, c)) < 0x1000_0000
  {
    hide GabiStep, Step;
    WideIs(k);
    StepsAgree(h, k, c);
  }

  lemma FoldsAgree(s: bv64, t: bv32)
    requires Same(s, t)
    ensures var g := Top(s); Low28(if g != 0 then Xor24(s, g) else s) == Wide(GabiFold(t))
  {
    hide Wide, Top, Xor24, Low28, Same, NothingToFold, Folded, Lowest28, GabiFold;
    TopsAgree(s, t);
    if NothingToFold(t) {
      GabiFoldIdle(t);
      LowsAgree(s, t);
    } else {
      GabiFoldBusy(t);
      FoldedAgree(s, t);
      LowsAgree(Xor24(s, Top(s)), Folded(t));
    }
  }

  // ---------- examples ----------

  /** A name whose last character takes the sum past bit 31: only the low 32 bits of that count. */
  lemma CarryHappens()
    ensures var name := [0x0f, 0x0f, 0x0f, 0x0f, 0x0f, 0x0f, 0x0f];
            && GabiHash(name) == 0x0fff_ffff
            && Sum(GabiHash(name) as bv64, 0xff) > 0xffff_ffff
            && GabiHash(name + [0xff]) == 0xef
  {
    var name: seq<bv8> := [0x0f, 0x0f, 0x0f, 0x0f, 0x0f, 0x0f, 0x0f];
    HashOfOnes(name, 7);
    Extend(name, 0xff);
    LastStep();
    hide GabiStep, GabiHash;
  }

  lemma LastStep()
    ensures Sum(0x0fff_ffff, 0xff) > 0xffff_ffff && GabiStep(0x0fff_ffff, 0xff) == 0xef
  {
  }

  /** k digits 0xf. */
  function Ones(k: nat): bv32 {
    if k == 0 then 0 else if k == 1 then 0xf else if k == 2 then 0xff else if k == 3 then 0xfff
    else if k == 4 then 0xffff else if k == 5 then 0xf_ffff else if k == 6 then 0xff_ffff else 0x0fff_ffff
  }

  lemma OnesStep(k: nat)
    requires 0 < k <= 7
    ensures GabiStep(Ones(k - 1), 0x0f) == Ones(k)
  {
  }

  lemma {:induction false} HashOfOnes(name: seq<bv8>, k: nat)
    requires k <= 7 && |name| == k && forall i :: 0 <= i < k ==> name[i] == 0x0f
    ensures GabiHash(name) == Ones(k)
  {
    if k > 0 {
      HashOfOnes(name[..k - 1], k - 1);
      OnesStep(k);
      assert name[..k - 1] + [name[k - 1]] == name;
      hide GabiStep, Ones;
      Extend(name[..k - 1], name[k - 1]);
    }
  }

  const FPRINTF: seq<bv8> := [0x66, 0x70, 0x72, 0x69, 0x6e, 0x74, 0x66]

  lemma FprintfSteps()
    ensures GabiStep(0, 0x66) == 0x66 && GabiStep(0x66, 0x70) == 0x6d0 && GabiStep(0x6d0, 0x72) == 0x6d72
    ensures GabiStep(0x6d72, 0x69) == 0x6_d789 && GabiStep(0x6_d789, 0x6e) == 0x6d_78fe
    ensures GabiStep(0x6d_78fe, 0x74) == 0x6d7_9054 && GabiStep(0x6d7_9054, 0x66) == 0xd79_05c6
  {
  }

  /** A name whose last step folds the top bits in. */
  lemma HashOfFprintf()
    ensures !NothingToFold((GabiHash(FPRINTF[..6]) << 4) + 0x66)
    ensures GabiHash(FPRINTF) == 0xd79_05c6
  {
    FprintfSteps();
    var n: seq<bv8> := [];
    Extend(n, 0x66);
    Extend(n + [0x66], 0x70);
    Extend(n + [0x66] + [0x70], 0x72);
    Extend(n + [0x66] + [0x70] + [0x72], 0x69);
    Extend(n + [0x66] + [0x70] + [0x72] + [0x69], 0x6e);
    Extend(n + [0x66] + [0x70] + [0x72] + [0x69] + [0x6e], 0x74);
    Extend(n + [0x66] + [0x70] + [0x72] + [0x69] + [0x6e] + [0x74], 0x66);
    hide GabiStep;
    assert FPRINTF[..6] == n + [0x66] + [0x70] + [0x72] + [0x69] + [0x6e] + [0x74];
    assert FPRINTF == FPRINTF[..6] + [0x66];
  }

  lemma Extend(name: seq<bv8>, c: bv8)
    ensures GabiHash(name + [c]) == GabiStep(GabiHash(name), c)
  {
    var longer := name + [c];
    assert longer[..|longer| - 1] == name;
    hide GabiStep;
  }

  // ---------- the loop ----------

  method HashByte(h0: bv64, c: bv8) returns (h: bv64)
    ensures h == Step(h0, c)
  {
    hide Sum, Top, Xor24, Low28;
    h := Sum(h0, c);
    var g := Top(h);
    if g != 0 {
      h := Xor24(h, g);
    }
    h := Low28(h);
  }

  /** elf_sym_hash, on a string that ends at its first zero byte. */
  method ElfSymHash(s: array<bv8>, ghost n: nat) returns (h: bv64)
    requires n < s.Length && s[n] == 0 && forall i :: 0 <= i < n ==> s[i] != 0
    ensures h == GabiHash(s[..n]) as bv64
    ensures h < 0x1000_0000
  {
    hide GabiStep, Step, Wide;
    WideZero();
    h := 0;
    var i := 0;
    while s[i] != 0
      invariant 0 <= i <= n
      invariant h == Wide(GabiHash(s[..i])) && h < 0x1000_0000
      decreases n - i
    {
      WideStepsAgree(h, GabiHash(s[..i]), s[i]);
      h := HashByte(h, s[i]);
      Extend(s[..i], s[i]);
      assert s[..i] + [s[i]] == s[..i + 1];
      i := i + 1;
    }
    WideIs(GabiHash(s[..n]));
  }

  lemma WideZero()
    ensures Wide(0) == 0 && 0 < 0x1000_0000 as bv64
  {
  }

  lemma WideIs(t: bv32)
    ensures Wide(t) == t as bv64
  {
  }
}
