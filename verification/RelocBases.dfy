/** One image relocated at two load bases, and the two loaders on one image. */
module RelocBases {
  import opened Machine
  import opened Reloc
  import opened RelocRuns
  import opened RelocApp

  // ---------- the passes as one run ----------

  /** The two passes are one run over the entries of both tables. */
  lemma PassesAreOneRun(m: Memory, base: U64, dyn: Dyn)
    requires Walkable(dyn) && !PltIsRel(dyn)
    ensures RelocateSelf(m, base, dyn) == RunSlots(m, ImageOf(base, dyn), AllSlots(base, dyn))
  {
    RunSlotsAppend(m, ImageOf(base, dyn), RelaSlots(base, dyn), PltSlots(base, dyn));
  }

  /** What loading promises for one image: the tables are well-formed for `RunRelocates`. */
  ghost predicate Loadable(m: Memory, base: U64, dyn: Dyn)
    requires Walkable(dyn)
  {
    LoadableAt(m, ImageOf(base, dyn), AllSlots(base, dyn))
  }

  ghost predicate LoadableAt(m: Memory, img: Image, slots: seq<Slot>) {
    Separate(m, img, slots) && AllHandled(m, img, slots) && DistinctTargets(m, img, slots)
  }

  /** Either loader leaves the relocated image unless it meets a table without addends. */
  lemma LoadersRelocate(m: Memory, base: U64, dyn: Dyn)
    requires Walkable(dyn) && Loadable(m, base, dyn) && !PltIsRel(dyn)
    ensures var o := RelocateSelf(m, base, dyn);
            o.Running? && Relocated(m, o.mem, ImageOf(base, dyn), AllSlots(base, dyn))
    ensures dyn[DT_REL] == 0 || dyn[DT_RELSZ] == 0 ==>
              var o := RelocateApp(m, base, dyn);
              o.Running? && Relocated(m, o.mem, ImageOf(base, dyn), AllSlots(base, dyn))
  {
    AppIsSelf(m, base, dyn);
    hide RelocateApp;
    PassesAreOneRun(m, base, dyn);
    RunRelocates(m, ImageOf(base, dyn), AllSlots(base, dyn));
  }

  // ---------- moving an image ----------

  function At(base: nat, s: Slot): Slot {
    Slot(base + s.at, s.plt)
  }

  function Placed(base: nat, slots: seq<Slot>): (r: seq<Slot>)
    ensures |r| == |slots|
  {
    seq(|slots|, i requires 0 <= i < |slots| => At(base, slots[i]))
  }

  /** The `size` bytes from b1 in m1 are those from b2 in m2. */
  ghost predicate SameBytes(m1: Memory, b1: nat, m2: Memory, b2: nat, size: nat) {
    && b1 + size <= TWO_TO_THE_64 && b2 + size <= TWO_TO_THE_64
    && Mapped(m1, b1, size) && Mapped(m2, b2, size)
    && (forall a :: b1 <= a < b1 + size ==> m1[a] == m2[a - b1 + b2])
  }

  /** Where a symbol's value lies in an image with its symbol table at the given offset. */
  function SymOffset(symtab: nat, sym: U32): nat {
    SymAt(Image(0, symtab), sym)
  }

  lemma SymMoves(base: U64, symtab: nat, sym: U32)
    ensures SymAt(Image(base, base + symtab), sym) == base + SymOffset(symtab, sym)
  {
  }

  /** The entry at offset s.at, its symbol and its target lie in the image of `size` bytes. */
  ghost predicate Inside(m: Memory, base: nat, symtab: nat, size: nat, s: Slot)
    requires Mapped(m, base, size)
  {
    && s.at + RELA_SIZE <= size
    && (var e := ReadEntry(m, base + s.at);
        ReadsSymbol(s, e) ==> SymOffset(symtab, e.sym) + 8 <= size && e.offset + 8 <= size)
  }

  lemma LoadMoves(m1: Memory, b1: nat, m2: Memory, b2: nat, size: nat, off: nat)
    requires SameBytes(m1, b1, m2, b2, size) && off + 8 <= size
    ensures Mapped(m1, b1 + off, 8) && Mapped(m2, b2 + off, 8)
    ensures Load64(m1, b1 + off) == Load64(m2, b2 + off)
  {
    hide Load;
    forall i | b1 + off <= i < b1 + off + 8 ensures m1[i] == m2[i - (b1 + off) + (b2 + off)] {
      assert i - (b1 + off) + (b2 + off) == i - b1 + b2;
    }
    hide SameBytes;
    LoadCongruence(m1, m2, b1 + off, b2 + off, 8);
  }

  lemma EntryMoves(m1: Memory, b1: U64, m2: Memory, b2: U64, size: nat, at: nat)
    requires SameBytes(m1, b1, m2, b2, size) && at + RELA_SIZE <= size
    ensures ReadEntry(m1, b1 + at) == ReadEntry(m2, b2 + at)
  {
    hide Load64;
    LoadMoves(m1, b1, m2, b2, size, at);
    LoadMoves(m1, b1, m2, b2, size, at + 8);
    LoadMoves(m1, b1, m2, b2, size, at + 16);
    assert b1 + (at + 8) == b1 + at + 8 && b2 + (at + 8) == b2 + at + 8;
    assert b1 + (at + 16) == b1 + at + 16 && b2 + (at + 16) == b2 + at + 16;
  }

  /** What a word and its counterpart at another base have in common. */
  predicate Rebased(v1: U64, b1: U64, v2: U64, b2: U64) {
    Plus(v1, b2) == Plus(v2, b1)
  }

  lemma AddressesRebase(b1: U64, b2: U64, x: U64)
    ensures Rebased(Plus(b1, x), b1, Plus(b2, x), b2)
  {
    PlusCases(b1, x);
    PlusCases(b2, x);
    PlusCases(Plus(b1, x), b2);
    PlusCases(Plus(b2, x), b1);
    hide Plus;
  }

  lemma PlusCases(x: U64, y: U64)
    ensures Plus(x, y) == if x + y < 0x1_0000_0000_0000_0000 then x + y else x + y - 0x1_0000_0000_0000_0000
  {
  }

  lemma SlotMoves(m1: Memory, b1: U64, m2: Memory, b2: U64, symtab: nat, size: nat, s: Slot)
    requires SameBytes(m1, b1, m2, b2, size) && Inside(m1, b1, symtab, size, s)
    ensures Mapped(m1, b1 + s.at, RELA_SIZE) && Mapped(m2, b2 + s.at, RELA_SIZE)
    ensures ReadEntry(m1, b1 + s.at) == ReadEntry(m2, b2 + s.at)
    ensures var e := ReadEntry(m1, b1 + s.at); var y := SymOffset(symtab, e.sym);
            ReadsSymbol(s, e) ==>
              && Mapped(m1, b1 + y, 8) && Mapped(m2, b2 + y, 8) && Load64(m1, b1 + y) == Load64(m2, b2 + y)
              && b1 + e.offset + 8 <= b1 + size <= TWO_TO_THE_64 && b2 + e.offset + 8 <= b2 + size <= TWO_TO_THE_64
  {
    hide Load64, ReadEntry, SymOffset;
    EntryMoves(m1, b1, m2, b2, size, s.at);
    var e := ReadEntry(m1, b1 + s.at);
    if ReadsSymbol(s, e) {
      LoadMoves(m1, b1, m2, b2, size, SymOffset(symtab, e.sym));
    }
  }

  /** What an entry does at two bases: the target moves with the image and the value by the
    difference of the bases. */
  ghost predicate EffectsMatch(f1: Effect, b1: U64, f2: Effect, b2: U64, off: U64) {
    && (f1.Put? <==> f2.Put?) && (f1.Unhandled? <==> f2.Unhandled?)
    && (f1.Put? ==> f1.w.target == b1 + off && f2.w.target == b2 + off && Rebased(f1.w.value, b1, f2.w.value, b2))
  }

  /** `f` is the effect of entry `e`, which lies in an image loaded at `b` and whose symbol has value `v`. */
  ghost predicate EffectAt(f: Effect, b: U64, s: Slot, e: Entry, v: U64) {
    && (f.Put? <==> ReadsSymbol(s, e) && (s.plt || e.kind == R_X86_64_GLOB_DAT || e.kind == R_X86_64_RELATIVE))
    && (f.Unhandled? <==> ReadsSymbol(s, e) && !f.Put?)
    && (f.Put? ==>
          && f.w.target == b + e.offset
          && f.w.value == Plus(b, if s.plt || e.kind == R_X86_64_GLOB_DAT then v else e.addend))
  }

  lemma EffectInImage(m: Memory, b: U64, symtab: nat, s: Slot, e: Entry, v: U64)
    requires Mapped(m, b + s.at, RELA_SIZE) && e == ReadEntry(m, b + s.at)
    requires var y := SymOffset(symtab, e.sym);
             ReadsSymbol(s, e) ==> Mapped(m, b + y, 8) && v == Load64(m, b + y) && b + e.offset + 8 <= TWO_TO_THE_64
    ensures SlotReadable(m, Image(b, b + symtab), At(b, s))
    ensures EffectAt(EffectOf(m, Image(b, b + symtab), At(b, s)), b, s, e, v)
  {
    SymMoves(b, symtab, e.sym);
    hide Load64, ReadEntry, Mapped, SymAt, SymOffset;
  }

  lemma EffectsAtMatch(f1: Effect, b1: U64, f2: Effect, b2: U64, s: Slot, e: Entry, v: U64)
    requires EffectAt(f1, b1, s, e, v) && EffectAt(f2, b2, s, e, v)
    ensures EffectsMatch(f1, b1, f2, b2, e.offset)
  {
    hide Rebased;
    AddressesRebase(b1, b2, v);
    AddressesRebase(b1, b2, e.addend);
  }

  lemma EffectMoves(m1: Memory, b1: U64, m2: Memory, b2: U64, symtab: nat, size: nat, s: Slot)
    requires SameBytes(m1, b1, m2, b2, size) && Inside(m1, b1, symtab, size, s)
    ensures Mapped(m1, b1 + s.at, RELA_SIZE) && Mapped(m2, b2 + s.at, RELA_SIZE)
    ensures ReadEntry(m1, b1 + s.at) == ReadEntry(m2, b2 + s.at)
    ensures SlotReadable(m1, Image(b1, b1 + symtab), At(b1, s)) && SlotReadable(m2, Image(b2, b2 + symtab), At(b2, s))
    ensures EffectsMatch(EffectOf(m1, Image(b1, b1 + symtab), At(b1, s)), b1,
                         EffectOf(m2, Image(b2, b2 + symtab), At(b2, s)), b2, ReadEntry(m1, b1 + s.at).offset)
  {
    hide *;
    SlotMoves(m1, b1, m2, b2, symtab, size, s);
    var e := ReadEntry(m1, b1 + s.at);
    var v := if ReadsSymbol(s, e) then Load64(m1, b1 + SymOffset(symtab, e.sym)) else 0;
    EffectInImage(m1, b1, symtab, s, e, v);
    EffectInImage(m2, b2, symtab, s, e, v);
    EffectsAtMatch(EffectOf(m1, Image(b1, b1 + symtab), At(b1, s)), b1,
                   EffectOf(m2, Image(b2, b2 + symtab), At(b2, s)), b2, s, e, v);
  }

  // ---------- the conditions move with the image ----------

  ghost predicate AllInside(m: Memory, base: nat, symtab: nat, size: nat, slots: seq<Slot>)
    requires Mapped(m, base, size)
  {
    forall i :: 0 <= i < |slots| ==> Inside(m, base, symtab, size, slots[i])
  }

  lemma TargetInside(m1: Memory, b1: U64, m2: Memory, b2: U64, symtab: nat, size: nat, s: Slot)
    requires SameBytes(m1, b1, m2, b2, size) && Inside(m1, b1, symtab, size, s)
    requires SlotReadable(m1, Image(b1, b1 + symtab), At(b1, s))
    requires EffectOf(m1, Image(b1, b1 + symtab), At(b1, s)).Put?
    ensures var off := ReadEntry(m1, b1 + s.at).offset;
            off + 8 <= size && Mapped(m1, b1 + off, 8) && Mapped(m2, b2 + off, 8)
  {
    hide Load64, Load, SymAt, SymOffset, ReadEntry;
  }

  lemma OffTablesMoves(m1: Memory, b1: U64, m2: Memory, b2: U64, symtab: nat, size: nat, s: Slot, t: Slot)
    requires SameBytes(m1, b1, m2, b2, size) && Inside(m1, b1, symtab, size, s) && Inside(m1, b1, symtab, size, t)
    requires SlotReadable(m1, Image(b1, b1 + symtab), At(b1, s)) && SlotReadable(m1, Image(b1, b1 + symtab), At(b1, t))
    requires SlotReadable(m2, Image(b2, b2 + symtab), At(b2, s)) && SlotReadable(m2, Image(b2, b2 + symtab), At(b2, t))
    requires TargetOffTables(m1, Image(b1, b1 + symtab), At(b1, s), At(b1, t))
    ensures TargetOffTables(m2, Image(b2, b2 + symtab), At(b2, s), At(b2, t))
  {
    hide ReadEntry, EffectOf, SameBytes, Inside, Load, Load64, SymOffset, Rebased, Mapped, SymAt;
    EffectMoves(m1, b1, m2, b2, symtab, size, s);
    EffectMoves(m1, b1, m2, b2, symtab, size, t);
    SymMoves(b1, symtab, ReadEntry(m1, b1 + t.at).sym);
    SymMoves(b2, symtab, ReadEntry(m1, b1 + t.at).sym);
    hide SlotReadable;
  }

  lemma LoadableMoves(m1: Memory, b1: U64, m2: Memory, b2: U64, symtab: nat, size: nat, rel: seq<Slot>)
    requires SameBytes(m1, b1, m2, b2, size) && AllInside(m1, b1, symtab, size, rel)
    requires LoadableAt(m1, Image(b1, b1 + symtab), Placed(b1, rel))
    ensures LoadableAt(m2, Image(b2, b2 + symtab), Placed(b2, rel))
  {
    hide ReadEntry, EffectOf, SameBytes, Inside, Load, Load64, SymOffset, Rebased, SymAt, SlotReadable;
    var i1, i2, s1, s2 := Image(b1, b1 + symtab), Image(b2, b2 + symtab), Placed(b1, rel), Placed(b2, rel);
    forall i | 0 <= i < |rel|
      ensures s1[i] == At(b1, rel[i]) && s2[i] == At(b2, rel[i])
      ensures SlotReadable(m1, i1, s1[i]) && SlotReadable(m2, i2, s2[i])
      ensures EffectOf(m1, i1, s1[i]).Unhandled? <==> EffectOf(m2, i2, s2[i]).Unhandled?
      ensures EffectOf(m1, i1, s1[i]).Put? <==> EffectOf(m2, i2, s2[i]).Put?
      ensures EffectOf(m2, i2, s2[i]).Put? ==>
                && EffectOf(m2, i2, s2[i]).w.target - b2 == EffectOf(m1, i1, s1[i]).w.target - b1
                && Mapped(m2, EffectOf(m2, i2, s2[i]).w.target, 8)
    {
      EffectMoves(m1, b1, m2, b2, symtab, size, rel[i]);
      if EffectOf(m2, i2, s2[i]).Put? {
        TargetInside(m1, b1, m2, b2, symtab, size, rel[i]);
      }
    }
    hide Placed, Mapped;
    forall i, j | 0 <= i < |s2| && 0 <= j < |s2| ensures TargetOffTables(m2, i2, s2[i], s2[j]) {
      assert TargetOffTables(m1, i1, s1[i], s1[j]);
      OffTablesMoves(m1, b1, m2, b2, symtab, size, rel[i], rel[j]);
    }
    assert AllHandled(m2, i2, s2);
    forall i, j | 0 <= i < j < |s2| && EffectOf(m2, i2, s2[i]).Put? && EffectOf(m2, i2, s2[j]).Put?
      ensures Apart(EffectOf(m2, i2, s2[i]).w.target, 8, EffectOf(m2, i2, s2[j]).w.target, 8)
    {
      assert Apart(EffectOf(m1, i1, s1[i]).w.target, 8, EffectOf(m1, i1, s1[j]).w.target, 8);
    }
  }

  // ---------- the theorem ----------

  /** The entry writes the word at offset `off` of the image. */
  ghost predicate Hits(m: Memory, base: U64, symtab: nat, s: Slot, off: nat)
  {
    && SlotReadable(m, Image(base, base + symtab), At(base, s))
    && EffectOf(m, Image(base, base + symtab), At(base, s)).Put?
    && ReadEntry(m, base + s.at).offset == off
  }

  /** The images m1 at b1 and m2 at b2 agree but for the relocated words, which differ by the
    difference of the bases. */
  ghost predicate DifferByBases(m0: Memory, m1: Memory, b1: U64, m2: Memory, b2: U64, symtab: nat, size: nat, rel: seq<Slot>)
  {
    && Mapped(m1, b1, size) && Mapped(m2, b2, size)
    && (forall i, off: U64 :: 0 <= i < |rel| && Hits(m0, b1, symtab, rel[i], off) ==>
          && off + 8 <= size
          && Mapped(m1, b1 + off, 8) && Mapped(m2, b2 + off, 8)
          && Rebased(Load64(m1, b1 + off), b1, Load64(m2, b2 + off), b2))
    && (forall a :: b1 <= a < b1 + size && ByteKept(m0, b1, symtab, rel, a) ==> m1[a] == m2[a - b1 + b2])
  }

  ghost predicate ByteKept(m: Memory, base: U64, symtab: nat, rel: seq<Slot>, a: nat)
  {
    forall i, off: U64 :: 0 <= i < |rel| && Hits(m, base, symtab, rel[i], off) ==> !(base + off <= a < base + off + 8)
  }

  /** A relocated word at either base. */
  lemma HitIsRebased(m1: Memory, b1: U64, n1: Memory, m2: Memory, b2: U64, n2: Memory, symtab: nat, size: nat, s: Slot, off: U64)
    requires SameBytes(m1, b1, m2, b2, size) && Inside(m1, b1, symtab, size, s) && Hits(m1, b1, symtab, s, off)
    requires SlotReadable(m2, Image(b2, b2 + symtab), At(b2, s))
    requires MeetsAbi(m1, n1, Image(b1, b1 + symtab), At(b1, s)) && MeetsAbi(m2, n2, Image(b2, b2 + symtab), At(b2, s))
    ensures off + 8 <= size
    ensures Mapped(n1, b1 + off, 8) && Mapped(n2, b2 + off, 8)
    ensures Rebased(Load64(n1, b1 + off), b1, Load64(n2, b2 + off), b2)
  {
    hide ReadEntry, EffectOf, SameBytes, Inside, Load, Load64, SymOffset, Rebased, SymAt, SlotReadable, MeetsAbi, Mapped;
    EffectMoves(m1, b1, m2, b2, symtab, size, s);
    TargetInside(m1, b1, m2, b2, symtab, size, s);
    PutOfAbi(m1, n1, Image(b1, b1 + symtab), At(b1, s));
    PutOfAbi(m2, n2, Image(b2, b2 + symtab), At(b2, s));
  }

  lemma RunsDifferByBases(m1: Memory, b1: U64, m2: Memory, b2: U64, symtab: nat, size: nat, rel: seq<Slot>)
    requires SameBytes(m1, b1, m2, b2, size) && AllInside(m1, b1, symtab, size, rel)
    requires LoadableAt(m1, Image(b1, b1 + symtab), Placed(b1, rel))
    ensures forall i :: 0 <= i < |rel| ==> SlotReadable(m1, Image(b1, b1 + symtab), At(b1, rel[i]))
    ensures var o1 := RunSlots(m1, Image(b1, b1 + symtab), Placed(b1, rel));
            var o2 := RunSlots(m2, Image(b2, b2 + symtab), Placed(b2, rel));
            o1.Running? && o2.Running? && DifferByBases(m1, o1.mem, b1, o2.mem, b2, symtab, size, rel)
  {
    hide ReadEntry, EffectOf, SameBytes, Inside, Load, Load64, SymOffset, Rebased, SymAt, SlotReadable, MeetsAbi, Hits,
      ByteKept, Mapped;
    var i1, i2, s1, s2 := Image(b1, b1 + symtab), Image(b2, b2 + symtab), Placed(b1, rel), Placed(b2, rel);
    LoadableMoves(m1, b1, m2, b2, symtab, size, rel);
    RunRelocates(m1, i1, s1);
    RunRelocates(m2, i2, s2);
    var n1, n2 := RunSlots(m1, i1, s1).mem, RunSlots(m2, i2, s2).mem;
    forall i | 0 <= i < |rel| ensures s1[i] == At(b1, rel[i]) && s2[i] == At(b2, rel[i]) {
    }
    forall i, off: U64 | 0 <= i < |rel| && Hits(m1, b1, symtab, rel[i], off)
      ensures off + 8 <= size
      ensures Mapped(n1, b1 + off, 8) && Mapped(n2, b2 + off, 8)
      ensures Rebased(Load64(n1, b1 + off), b1, Load64(n2, b2 + off), b2)
    {
      HitIsRebased(m1, b1, n1, m2, b2, n2, symtab, size, rel[i], off);
    }
    SameBytesFacts(m1, b1, m2, b2, size);
    StillMapped(m1, n1, b1, size);
    StillMapped(m2, n2, b2, size);
    forall a | b1 <= a < b1 + size && ByteKept(m1, b1, symtab, rel, a) ensures n1[a] == n2[a - b1 + b2] {
      KeptIsNoTarget(m1, b1, m2, b2, symtab, size, rel, a);
    }
  }

  lemma StillMapped(m: Memory, m': Memory, a: nat, n: nat)
    requires m'.Keys == m.Keys && Mapped(m, a, n)
    ensures Mapped(m', a, n) && forall x :: a <= x < a + n ==> x in m && x in m'
  {
    forall x | a <= x < a + n ensures x in m' { assert x in m.Keys; }
  }

  lemma SameBytesFacts(m1: Memory, b1: nat, m2: Memory, b2: nat, size: nat)
    requires SameBytes(m1, b1, m2, b2, size)
    ensures b1 + size <= TWO_TO_THE_64 && b2 + size <= TWO_TO_THE_64
    ensures Mapped(m1, b1, size) && Mapped(m2, b2, size)
    ensures forall a :: b1 <= a < b1 + size ==> m1[a] == m2[a - b1 + b2]
  {
  }

  lemma KeptIsNoTarget(m1: Memory, b1: U64, m2: Memory, b2: U64, symtab: nat, size: nat, rel: seq<Slot>, a: nat)
    requires SameBytes(m1, b1, m2, b2, size) && AllInside(m1, b1, symtab, size, rel)
    requires forall i :: 0 <= i < |rel| ==> SlotReadable(m1, Image(b1, b1 + symtab), At(b1, rel[i]))
    requires b1 <= a < b1 + size && ByteKept(m1, b1, symtab, rel, a)
    ensures forall i :: 0 <= i < |Placed(b1, rel)| ==> SlotReadable(m1, Image(b1, b1 + symtab), Placed(b1, rel)[i])
    ensures forall i :: 0 <= i < |Placed(b2, rel)| ==> SlotReadable(m2, Image(b2, b2 + symtab), Placed(b2, rel)[i])
    ensures NoTarget(m1, Image(b1, b1 + symtab), Placed(b1, rel), a)
    ensures NoTarget(m2, Image(b2, b2 + symtab), Placed(b2, rel), a - b1 + b2)
  {
    hide ReadEntry, EffectOf, SameBytes, Inside, Load, Load64, SymOffset, Rebased, SymAt, SlotReadable;
    var i1, i2, s1, s2 := Image(b1, b1 + symtab), Image(b2, b2 + symtab), Placed(b1, rel), Placed(b2, rel);
    forall i | 0 <= i < |rel|
      ensures s1[i] == At(b1, rel[i]) && s2[i] == At(b2, rel[i])
      ensures SlotReadable(m1, i1, s1[i]) && SlotReadable(m2, i2, s2[i])
      ensures EffectOf(m1, i1, s1[i]).Put? ==> !(EffectOf(m1, i1, s1[i]).w.target <= a < EffectOf(m1, i1, s1[i]).w.target + 8)
      ensures EffectOf(m2, i2, s2[i]).Put? ==>
                !(EffectOf(m2, i2, s2[i]).w.target <= a - b1 + b2 < EffectOf(m2, i2, s2[i]).w.target + 8)
    {
      EffectMoves(m1, b1, m2, b2, symtab, size, rel[i]);
      var off := ReadEntry(m1, b1 + rel[i].at).offset;
      if EffectOf(m1, i1, s1[i]).Put? {
        assert Hits(m1, b1, symtab, rel[i], off);
      }
    }
  }

  // ---------- whole images ----------

  /** The tables that the dynamic vector names lie in the image. */
  predicate TablesInside(dyn: Dyn, size: nat) {
    dyn[DT_SYMTAB] < size && dyn[DT_RELA] < size && dyn[DT_JMPREL] < size
  }

  lemma {:induction false} SlotsMove(base: nat, table: nat, stride: nat, size: nat, plt: bool)
    requires stride > 0
    ensures Slots(base + table, stride, size, plt) == Placed(base, Slots(table, stride, size, plt))
    decreases size
  {
    if size > 0 {
      var left := if size <= stride then 0 else size - stride;
      SlotsMove(base, table + stride, stride, left, plt);
      assert base + (table + stride) == base + table + stride;
    }
  }

  lemma TablesMove(base: U64, dyn: Dyn, size: nat)
    requires Walkable(dyn) && TablesInside(dyn, size) && base + size <= TWO_TO_THE_64
    ensures AllSlots(base, dyn) == Placed(base, AllSlots(0, dyn))
    ensures ImageOf(base, dyn) == Image(base, base + dyn[DT_SYMTAB])
  {
    assert Plus(base, dyn[DT_SYMTAB]) == base + dyn[DT_SYMTAB];
    assert Plus(base, dyn[DT_RELA]) == base + dyn[DT_RELA];
    assert Plus(base, dyn[DT_JMPREL]) == base + dyn[DT_JMPREL];
    assert Plus(0, dyn[DT_RELA]) == dyn[DT_RELA] && Plus(0, dyn[DT_JMPREL]) == dyn[DT_JMPREL];
    hide Plus, Slots;
    if dyn[DT_RELA] != 0 && dyn[DT_RELASZ] > 0 {
      SlotsMove(base, dyn[DT_RELA], dyn[DT_RELAENT], dyn[DT_RELASZ], false);
    }
    SlotsMove(base, dyn[DT_JMPREL], RELA_SIZE, dyn[DT_PLTRELSZ], true);
    assert RelaSlots(base, dyn) == Placed(base, RelaSlots(0, dyn));
    assert PltSlots(base, dyn) == Placed(base, PltSlots(0, dyn));
    hide RelaSlots, PltSlots;
  }

  /** Relocating one image at two bases gives images whose relocated words differ by exactly the
    difference of the bases modulo 2^64 and which are equal otherwise. */
  lemma TwoBases(m1: Memory, b1: U64, m2: Memory, b2: U64, size: nat, dyn: Dyn)
    requires Walkable(dyn) && !PltIsRel(dyn) && TablesInside(dyn, size)
    requires SameBytes(m1, b1, m2, b2, size) && AllInside(m1, b1, dyn[DT_SYMTAB], size, AllSlots(0, dyn))
    requires Loadable(m1, b1, dyn)
    ensures Loadable(m2, b2, dyn)
    ensures dyn[DT_REL] == 0 || dyn[DT_RELSZ] == 0 ==>
              RelocateApp(m1, b1, dyn) == RelocateSelf(m1, b1, dyn) && RelocateApp(m2, b2, dyn) == RelocateSelf(m2, b2, dyn)
    ensures var o1, o2, rel := RelocateSelf(m1, b1, dyn), RelocateSelf(m2, b2, dyn), AllSlots(0, dyn);
            && o1.Running? && o2.Running?
            && DifferByBases(m1, o1.mem, b1, o2.mem, b2, dyn[DT_SYMTAB], size, rel)
  {
    hide SameBytes, AllInside, Walkable, Separate, DistinctTargets, AllHandled, DifferByBases, SlotReadable,
      RunSlots, ReadEntry, EffectOf, SymAt, Load64, Placed, AllSlots, RelocateSelf, RelocateApp;
    AppIsSelf(m1, b1, dyn);
    AppIsSelf(m2, b2, dyn);
    assert b1 + size <= TWO_TO_THE_64 && b2 + size <= TWO_TO_THE_64 by { SameBytesFacts(m1, b1, m2, b2, size); }
    TablesMove(b1, dyn, size);
    TablesMove(b2, dyn, size);
    PassesAreOneRun(m1, b1, dyn);
    PassesAreOneRun(m2, b2, dyn);
    LoadableMoves(m1, b1, m2, b2, dyn[DT_SYMTAB], size, AllSlots(0, dyn));
    RunsDifferByBases(m1, b1, m2, b2, dyn[DT_SYMTAB], size, AllSlots(0, dyn));
  }
}
