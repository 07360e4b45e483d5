/** What relocation leaves, word by word in the terms of section 4.4.1 of the AMD64 psABI and of the
  layout of Elf64_Rela and Elf64_Sym. Nothing here but the reading of a 64-bit word is shared with
  the description of the loops. */
module RelocAbi {
  import opened Machine
  import opened Reloc
  import opened RelocRuns
  import opened RelocApp
  import opened RelocBases

  // ---------- the layout ----------

  function EntryAt(table: nat, stride: nat, i: nat): nat {
    table + i * stride
  }

  /** Where the entry at `at` writes. */
  function TargetOf(m: Memory, base: U64, at: nat): nat
    requires Mapped(m, at, 24)
  {
    (base + Load64(m, at)) % 0x1_0000_0000_0000_0000
  }

  function KindOf(m: Memory, at: nat): nat
    requires Mapped(m, at, 24)
  {
    Load64(m, at + 8) % 0x1_0000_0000
  }

  /** Where the value of the entry's symbol lies. */
  function ValueAt(m: Memory, symtab: nat, at: nat): nat
    requires Mapped(m, at, 24)
  {
    symtab + 24 * (Load64(m, at + 8) / 0x1_0000_0000) + 8
  }

  /** R_X86_64_GLOB_DAT is 6, R_X86_64_JUMP_SLOT 7 and R_X86_64_RELATIVE 8. */
  ghost predicate WritesTarget(m: Memory, at: nat, plt: bool)
    requires Mapped(m, at, 24)
  {
    if plt then KindOf(m, at) == 7 else KindOf(m, at) == 6 || KindOf(m, at) == 8
  }

  /** S for GLOB_DAT and JUMP_SLOT, B + A for RELATIVE. */
  ghost predicate EntryDone(m: Memory, m': Memory, base: U64, symtab: nat, at: nat, plt: bool) {
    && Mapped(m, at, 24)
    && (WritesTarget(m, at, plt) ==>
          && Mapped(m', TargetOf(m, base, at), 8)
          && if KindOf(m, at) == 8 then
               Load64(m', TargetOf(m, base, at)) == (base + Load64(m, at + 16)) % 0x1_0000_0000_0000_0000
             else
               && Mapped(m, ValueAt(m, symtab, at), 8)
               && Load64(m', TargetOf(m, base, at))
                  == (base + Load64(m, ValueAt(m, symtab, at))) % 0x1_0000_0000_0000_0000)
  }

  ghost predicate TableDone(m: Memory, m': Memory, base: U64, symtab: nat, table: nat, stride: nat, size: nat, plt: bool) {
    forall i: nat :: i * stride < size ==> EntryDone(m, m', base, symtab, EntryAt(table, stride, i), plt)
  }

  /** Address `a` is in no word that an entry of the table writes. */
  ghost predicate Spared(m: Memory, base: U64, table: nat, stride: nat, size: nat, plt: bool, a: nat) {
    forall i: nat :: i * stride < size ==> !Hit(m, base, EntryAt(table, stride, i), plt, a)
  }

  ghost predicate Hit(m: Memory, base: U64, at: nat, plt: bool, a: nat) {
    Mapped(m, at, 24) && WritesTarget(m, at, plt) && TargetOf(m, base, at) <= a < TargetOf(m, base, at) + 8
  }

  /** The image at `base` with the decoded dynamic vector `dyn`: DT_PLTRELSZ is 2, DT_PLTGOT 3,
    DT_SYMTAB 6, DT_RELA 7, DT_RELASZ 8, DT_RELAENT 9 and DT_JMPREL 23. */
  ghost predicate ImageDone(m: Memory, m': Memory, base: U64, dyn: Dyn) {
    var symtab := (base + dyn[6]) % 0x1_0000_0000_0000_0000;
    var rela := (base + dyn[7]) % 0x1_0000_0000_0000_0000;
    var plt := (base + dyn[23]) % 0x1_0000_0000_0000_0000;
    && m'.Keys == m.Keys
    && (dyn[7] != 0 ==> TableDone(m, m', base, symtab, rela, dyn[9], dyn[8], false))
    && (dyn[3] != 0 ==> TableDone(m, m', base, symtab, plt, 24, dyn[2], true))
    && (forall a :: a in m && SparedByAll(m, base, dyn, a) ==> m'[a] == m[a])
  }

  ghost predicate SparedByAll(m: Memory, base: U64, dyn: Dyn, a: nat) {
    var rela := (base + dyn[7]) % 0x1_0000_0000_0000_0000;
    var plt := (base + dyn[23]) % 0x1_0000_0000_0000_0000;
    && (dyn[7] != 0 ==> Spared(m, base, rela, dyn[9], dyn[8], false, a))
    && (dyn[3] != 0 ==> Spared(m, base, plt, 24, dyn[2], true, a))
  }

  // ---------- entries ----------

  /** The two halves of r_info. */
  lemma InfoHalves(info: U64)
    ensures R_Sym(info) * 0x1_0000_0000 + R_Type(info) == info
    ensures R_Type(info) == info % 0x1_0000_0000 && R_Sym(info) == info / 0x1_0000_0000
  {
  }

  lemma SlotParts(m: Memory, img: Image, s: Slot)
    requires Mapped(m, s.at, 24)
    ensures var e := ReadEntry(m, s.at);
            && e.kind == KindOf(m, s.at) && SymAt(img, e.sym) == ValueAt(m, img.symtab, s.at)
            && Addr(img, e.offset) == TargetOf(m, img.base, s.at) && e.offset == Load64(m, s.at)
            && e.addend == Load64(m, s.at + 16)
  {
    InfoHalves(Load64(m, s.at + 8));
    hide Load;
  }

  lemma DoneByAbi(m: Memory, m': Memory, img: Image, s: Slot)
    requires SlotReadable(m, img, s) && MeetsAbi(m, m', img, s)
    ensures EntryDone(m, m', img.base, img.symtab, s.at, s.plt)
  {
    SlotParts(m, img, s);
    hide Load, Load64, KindOf, TargetOf, ValueAt, SymAt, ReadEntry;
  }

  lemma TargetIsPut(m: Memory, img: Image, s: Slot)
    requires SlotReadable(m, img, s) && EffectOf(m, img, s).Put?
    ensures Mapped(m, s.at, 24) && WritesTarget(m, s.at, s.plt) && EffectOf(m, img, s).w.target == TargetOf(m, img.base, s.at)
  {
    SlotParts(m, img, s);
    hide Load, Load64, KindOf, TargetOf, ValueAt, SymAt, ReadEntry;
  }

  // ---------- tables ----------

  lemma NextOffset(i: nat, stride: nat, size: nat)
    requires stride > 0 && i > 0 && size > 0
    ensures i * stride < size <==> (i - 1) * stride < if size <= stride then 0 else size - stride
  {
    assert i * stride == (i - 1) * stride + stride;
  }

  lemma NextEntry(table: nat, stride: nat, i: nat)
    requires i > 0
    ensures EntryAt(table, stride, i) == EntryAt(table + stride, stride, i - 1)
  {
    assert i * stride == (i - 1) * stride + stride;
  }

  /** The entries of a table are those whose offset is below its size. */
  lemma {:induction false} SlotsOfTable(table: nat, stride: nat, size: nat, plt: bool, i: nat)
    requires stride > 0
    ensures i < |Slots(table, stride, size, plt)| <==> i * stride < size
    ensures i * stride < size ==> Slots(table, stride, size, plt)[i] == Slot(EntryAt(table, stride, i), plt)
    decreases size
  {
    if size > 0 && i > 0 {
      SlotsOfTable(table + stride, stride, if size <= stride then 0 else size - stride, plt, i - 1);
      NextOffset(i, stride, size);
      NextEntry(table, stride, i);
    }
  }

  ghost predicate AllMeetAbi(m: Memory, m': Memory, img: Image, slots: seq<Slot>) {
    forall i :: 0 <= i < |slots| ==> SlotReadable(m, img, slots[i]) && MeetsAbi(m, m', img, slots[i])
  }

  lemma TableDoneByAbi(m: Memory, m': Memory, img: Image, table: nat, stride: nat, size: nat, plt: bool)
    requires stride > 0 && AllMeetAbi(m, m', img, Slots(table, stride, size, plt))
    ensures TableDone(m, m', img.base, img.symtab, table, stride, size, plt)
  {
    var slots := Slots(table, stride, size, plt);
    hide Slots, MeetsAbi, SlotReadable, EntryDone, EntryAt;
    forall i: nat | i * stride < size ensures EntryDone(m, m', img.base, img.symtab, EntryAt(table, stride, i), plt) {
      SlotsOfTable(table, stride, size, plt, i);
      DoneByAbi(m, m', img, slots[i]);
    }
  }

  /** An address outside the table's targets is in no target of its entries. */
  lemma SparedByTable(m: Memory, img: Image, table: nat, stride: nat, size: nat, plt: bool, a: nat, i: nat)
    requires stride > 0 && Spared(m, img.base, table, stride, size, plt, a) && i < |Slots(table, stride, size, plt)|
    requires SlotReadable(m, img, Slots(table, stride, size, plt)[i])
    requires EffectOf(m, img, Slots(table, stride, size, plt)[i]).Put?
    ensures var t := EffectOf(m, img, Slots(table, stride, size, plt)[i]).w.target; !(t <= a < t + 8)
  {
    hide Slots, SlotReadable, EffectOf, EntryAt, TargetOf, WritesTarget;
    SlotsOfTable(table, stride, size, plt, i);
    TargetIsPut(m, img, Slots(table, stride, size, plt)[i]);
    assert !Hit(m, img.base, EntryAt(table, stride, i), plt, a);
  }

  // ---------- whole images ----------

  lemma PartsMeetAbi(m: Memory, m': Memory, img: Image, a: seq<Slot>, b: seq<Slot>)
    requires forall i :: 0 <= i < |a + b| ==> SlotReadable(m, img, (a + b)[i])
    requires Relocated(m, m', img, a + b)
    ensures AllMeetAbi(m, m', img, a) && AllMeetAbi(m, m', img, b)
  {
    hide SlotReadable, MeetsAbi, NoTarget;
    forall i | 0 <= i < |a| ensures SlotReadable(m, img, a[i]) && MeetsAbi(m, m', img, a[i]) {
      assert (a + b)[i] == a[i];
    }
    forall i | 0 <= i < |b| ensures SlotReadable(m, img, b[i]) && MeetsAbi(m, m', img, b[i]) {
      assert (a + b)[|a| + i] == b[i];
    }
  }

  lemma RelaDone(m: Memory, m': Memory, base: U64, dyn: Dyn)
    requires Walkable(dyn) && dyn[7] != 0 && AllMeetAbi(m, m', ImageOf(base, dyn), RelaSlots(base, dyn))
    ensures TableDone(m, m', base, Plus(base, dyn[6]), Plus(base, dyn[7]), dyn[9], dyn[8], false)
  {
    hide TableDone, Slots, AllMeetAbi, Plus;
    if dyn[8] > 0 {
      TableDoneByAbi(m, m', ImageOf(base, dyn), Plus(base, dyn[7]), dyn[9], dyn[8], false);
    } else {
      EmptyTable(m, m', base, Plus(base, dyn[6]), Plus(base, dyn[7]), dyn[9], false);
    }
  }

  lemma PltDone(m: Memory, m': Memory, base: U64, dyn: Dyn)
    requires dyn[3] != 0 && AllMeetAbi(m, m', ImageOf(base, dyn), PltSlots(base, dyn))
    ensures TableDone(m, m', base, Plus(base, dyn[6]), Plus(base, dyn[23]), 24, dyn[2], true)
  {
    hide TableDone, Slots, AllMeetAbi, Plus;
    TableDoneByAbi(m, m', ImageOf(base, dyn), Plus(base, dyn[23]), 24, dyn[2], true);
  }

  /** The relocated image, as the loops are proved to leave it, is what the psABI asks for. */
  lemma RelocatedIsDone(m: Memory, m': Memory, base: U64, dyn: Dyn)
    requires Walkable(dyn) && Loadable(m, base, dyn)
    requires Relocated(m, m', ImageOf(base, dyn), AllSlots(base, dyn))
    ensures ImageDone(m, m', base, dyn)
  {
    hide AllMeetAbi, TableDone, SparedByAll, NoTarget, Slots, RelaSlots, PltSlots, SlotReadable, EffectOf, MeetsAbi, Relocated,
      Walkable;
    var img := ImageOf(base, dyn);
    AllReadable(m, base, dyn);
    PartsMeetAbi(m, m', img, RelaSlots(base, dyn), PltSlots(base, dyn));
    if dyn[7] != 0 {
      RelaDone(m, m', base, dyn);
    }
    if dyn[3] != 0 {
      PltDone(m, m', base, dyn);
    }
    hide Loadable;
    RelocatedKeys(m, m', img, AllSlots(base, dyn));
    forall a | a in m && SparedByAll(m, base, dyn, a) ensures m'[a] == m[a] {
      SparedIsNoTarget(m, base, dyn, a);
      KeptWithoutTarget(m, m', img, AllSlots(base, dyn), a);
    }
  }

  lemma AllReadable(m: Memory, base: U64, dyn: Dyn)
    requires Walkable(dyn) && Loadable(m, base, dyn)
    ensures forall i :: 0 <= i < |AllSlots(base, dyn)| ==> SlotReadable(m, ImageOf(base, dyn), AllSlots(base, dyn)[i])
  {
    hide SlotReadable, AllSlots, TargetOffTables, AllHandled, DistinctTargets, EffectOf;
  }

  lemma RelocatedKeys(m: Memory, m': Memory, img: Image, slots: seq<Slot>)
    requires forall i :: 0 <= i < |slots| ==> SlotReadable(m, img, slots[i])
    requires Relocated(m, m', img, slots)
    ensures m'.Keys == m.Keys
  {
    hide SlotReadable, NoTarget, MeetsAbi;
  }

  lemma KeptWithoutTarget(m: Memory, m': Memory, img: Image, slots: seq<Slot>, a: nat)
    requires forall i :: 0 <= i < |slots| ==> SlotReadable(m, img, slots[i])
    requires Relocated(m, m', img, slots) && a in m && NoTarget(m, img, slots, a)
    ensures a in m' && m'[a] == m[a]
  {
    hide SlotReadable, NoTarget, MeetsAbi;
  }

  lemma EmptyTable(m: Memory, m': Memory, base: U64, symtab: nat, table: nat, stride: nat, plt: bool)
    ensures TableDone(m, m', base, symtab, table, stride, 0, plt)
  {
    forall i: nat ensures i * stride >= 0 {
    }
  }

  lemma SparedIsNoTarget(m: Memory, base: U64, dyn: Dyn, a: nat)
    requires Walkable(dyn) && Loadable(m, base, dyn)
    requires SparedByAll(m, base, dyn, a)
    ensures NoTarget(m, ImageOf(base, dyn), AllSlots(base, dyn), a)
  {
    hide Slots, RelaSlots, PltSlots, SlotReadable, EffectOf, SparedByAll, Loadable;
    AllReadable(m, base, dyn);
    var img, x, y := ImageOf(base, dyn), RelaSlots(base, dyn), PltSlots(base, dyn);
    var slots := AllSlots(base, dyn);
    forall i | 0 <= i < |slots| && EffectOf(m, img, slots[i]).Put?
      ensures var t := EffectOf(m, img, slots[i]).w.target; !(t <= a < t + 8)
    {
      if i < |x| {
        assert slots[i] == x[i];
        RelaSpares(m, base, dyn, a, i);
      } else {
        assert slots[i] == y[i - |x|];
        PltSpares(m, base, dyn, a, i - |x|);
      }
    }
  }

  lemma RelaSpares(m: Memory, base: U64, dyn: Dyn, a: nat, i: nat)
    requires Walkable(dyn) && SparedByAll(m, base, dyn, a) && i < |RelaSlots(base, dyn)|
    requires SlotReadable(m, ImageOf(base, dyn), RelaSlots(base, dyn)[i])
    requires EffectOf(m, ImageOf(base, dyn), RelaSlots(base, dyn)[i]).Put?
    ensures var t := EffectOf(m, ImageOf(base, dyn), RelaSlots(base, dyn)[i]).w.target; !(t <= a < t + 8)
  {
    hide Slots, SlotReadable, EffectOf, Spared;
    SparedByTable(m, ImageOf(base, dyn), Plus(base, dyn[7]), dyn[9], dyn[8], false, a, i);
  }

  lemma PltSpares(m: Memory, base: U64, dyn: Dyn, a: nat, i: nat)
    requires SparedByAll(m, base, dyn, a) && i < |PltSlots(base, dyn)|
    requires SlotReadable(m, ImageOf(base, dyn), PltSlots(base, dyn)[i])
    requires EffectOf(m, ImageOf(base, dyn), PltSlots(base, dyn)[i]).Put?
    ensures var t := EffectOf(m, ImageOf(base, dyn), PltSlots(base, dyn)[i]).w.target; !(t <= a < t + 8)
  {
    hide Slots, SlotReadable, EffectOf, Spared;
    SparedByTable(m, ImageOf(base, dyn), Plus(base, dyn[23]), 24, dyn[2], true, a, i);
  }

  // ---------- what the loaders leave ----------

  /** Either loader leaves what the psABI asks for, the second one if it meets no REL entries: DT_REL
    is 17, DT_RELSZ 18 and DT_PLTREL 20. */
  lemma LoadersMeetAbi(m: Memory, base: U64, dyn: Dyn)
    requires Walkable(dyn) && Loadable(m, base, dyn) && (dyn[3] == 0 || dyn[20] != 17)
    ensures RelocateSelf(m, base, dyn).Running? && ImageDone(m, RelocateSelf(m, base, dyn).mem, base, dyn)
    ensures dyn[17] == 0 || dyn[18] == 0 ==>
              RelocateApp(m, base, dyn).Running? && ImageDone(m, RelocateApp(m, base, dyn).mem, base, dyn)
    ensures dyn[17] != 0 && dyn[18] != 0 ==> RelocateApp(m, base, dyn) == Exited(0, m)
  {
    LoadersRelocate(m, base, dyn);
    hide Loadable, Relocated, ImageDone, RelocateSelf;
    RelocatedIsDone(m, RelocateSelf(m, base, dyn).mem, base, dyn);
    AppIsSelf(m, base, dyn);
  }

  /** A PLT without addends makes both exit with status 1, unless the RELA entries stop them before. */
  lemma PltWithoutAddends(m: Memory, base: U64, dyn: Dyn)
    requires Walkable(dyn) && dyn[3] != 0 && dyn[20] == 17
    ensures !RelocateSelf(m, base, dyn).Running? && !RelocateApp(m, base, dyn).Running?
    ensures RelocateSelf(m, base, dyn).Exited? ==> RelocateSelf(m, base, dyn).code == 1
  {
    hide RunSlots, Slots, RelocateApp;
    OnlyStatusOne(m, ImageOf(base, dyn), RelaSlots(base, dyn));
    AppIsSelf(m, base, dyn);
  }

  lemma {:induction false} OnlyStatusOne(m: Memory, img: Image, slots: seq<Slot>)
    ensures RunSlots(m, img, slots).Exited? ==> RunSlots(m, img, slots).code == 1
    decreases |slots|
  {
    hide Load, Store, EffectOf, SlotReadable;
    if slots != [] && SlotReadable(m, img, slots[0]) {
      match EffectOf(m, img, slots[0])
      case Put(w) =>
        if Mapped(m, w.target, 8) {
          OnlyStatusOne(Store64(m, w.target, w.value), img, slots[1..]);
        }
      case Pass => OnlyStatusOne(m, img, slots[1..]);
      case Unhandled =>
    }
  }
}
