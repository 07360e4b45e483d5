/** The relocation passes of ld_stage2_entry on the application, loader/loader.c: the second
  implementation of what ld_stage1_entry does to the loader itself. Its loops are described here by
  the offsets they go through; `RelocRuns` describes those of the first by lists of entries. */
module RelocApp {
  import opened Machine
  import opened Reloc
  import opened RelocRuns

  // ---------- the loops ----------

  /** The RELA loop from offset `rela_offs` on. */
  ghost function RelaFrom(m: Memory, base: U64, dyn: Dyn, rela_offs: nat): Outcome
    requires dyn[DT_RELASZ] > 0 ==> dyn[DT_RELAENT] > 0
    decreases Left(dyn[DT_RELASZ], rela_offs)
  {
    if rela_offs >= dyn[DT_RELASZ] then Running(m)
    else
      var rela := Plus(base, dyn[DT_RELA]) + rela_offs;
      if !Mapped(m, rela, RELA_SIZE) then Fault
      else
        var e := ReadEntry(m, rela);
        var st_value := SymValueAt(base, dyn, e.sym);
        var reloc_addr := Plus(base, e.offset);
        var next := rela_offs + dyn[DT_RELAENT];
        if !Mapped(m, st_value, 8) then Fault
        else if e.kind == R_X86_64_GLOB_DAT then
          if Mapped(m, reloc_addr, 8) then
            RelaFrom(Store64(m, reloc_addr, Plus(base, Load64(m, st_value))), base, dyn, next)
          else Fault
        else if e.kind == R_X86_64_RELATIVE then
          if Mapped(m, reloc_addr, 8) then
            RelaFrom(Store64(m, reloc_addr, Plus(base, e.addend)), base, dyn, next)
          else Fault
        else Exited(1, m)
  }

  /** The JMPREL loop from offset `rela_offs` on. Entries of other types are passed over. */
  ghost function JmprelFrom(m: Memory, base: U64, dyn: Dyn, rela_offs: nat): Outcome
    decreases Left(dyn[DT_PLTRELSZ], rela_offs)
  {
    if rela_offs >= dyn[DT_PLTRELSZ] then Running(m)
    else
      var rela := Plus(base, dyn[DT_JMPREL]) + rela_offs;
      var next := rela_offs + RELA_SIZE;
      if !Mapped(m, rela, RELA_SIZE) then Fault
      else
        var e := ReadEntry(m, rela);
        if e.kind != R_X86_64_JUMP_SLOT then JmprelFrom(m, base, dyn, next)
        else
          var st_value := SymValueAt(base, dyn, e.sym);
          var reloc_addr := Plus(base, e.offset);
          if Mapped(m, st_value, 8) && Mapped(m, reloc_addr, 8) then
            JmprelFrom(Store64(m, reloc_addr, Plus(base, Load64(m, st_value))), base, dyn, next)
          else Fault
  }

  /** &symtab[sym].st_value */
  function SymValueAt(base: U64, dyn: Dyn, sym: U32): nat {
    Plus(base, dyn[DT_SYMTAB]) + sym * SYM_SIZE + ST_VALUE
  }

  ghost function AppRela(m: Memory, base: U64, dyn: Dyn): Outcome
    requires Walkable(dyn)
  {
    if dyn[DT_RELA] != 0 then RelaFrom(m, base, dyn, 0) else Running(m)
  }

  ghost function AppJmprel(m: Memory, base: U64, dyn: Dyn): Outcome {
    if dyn[DT_PLTGOT] == 0 then Running(m)
    else if dyn[DT_PLTREL] == DT_REL then Exited(1, m)
    else JmprelFrom(m, base, dyn, 0)
  }

  /** All passes. They give up with status 0 at the first REL entry. */
  ghost function RelocateApp(m: Memory, base: U64, dyn: Dyn): Outcome
    requires Walkable(dyn)
  {
    if dyn[DT_REL] != 0 && dyn[DT_RELSZ] > 0 then Exited(0, m)
    else
      match AppRela(m, base, dyn)
      case Running(m1) => AppJmprel(m1, base, dyn)
      case o => o
  }

  // ---------- the same as the first implementation ----------

  lemma SymValueIsSymAt(base: U64, dyn: Dyn, sym: U32)
    ensures SymValueAt(base, dyn, sym) == SymAt(ImageOf(base, dyn), sym)
  {
  }

  /** From every offset, the RELA loop does what the first loader does to the entries from there on. */
  lemma {:induction false} RelaFromIsRun(m: Memory, base: U64, dyn: Dyn, offs: nat)
    requires dyn[DT_RELAENT] > 0
    ensures RelaFrom(m, base, dyn, offs) ==
            RunSlots(m, ImageOf(base, dyn),
                     Slots(Plus(base, dyn[DT_RELA]) + offs, dyn[DT_RELAENT], Left(dyn[DT_RELASZ], offs), false))
    decreases Left(dyn[DT_RELASZ], offs)
  {
    hide Load, Store, Load64, Store64, ReadEntry, Plus, SymAt, SymValueAt;
    var table, ent, size := Plus(base, dyn[DT_RELA]), dyn[DT_RELAENT], dyn[DT_RELASZ];
    if offs < size {
      SlotsStep(table, ent, size, offs, false);
      hide Slots;
      var rela := table + offs;
      if Mapped(m, rela, RELA_SIZE) {
        var e := ReadEntry(m, rela);
        SymValueIsSymAt(base, dyn, e.sym);
        var st_value, reloc_addr := SymValueAt(base, dyn, e.sym), Plus(base, e.offset);
        if Mapped(m, st_value, 8) && Mapped(m, reloc_addr, 8) {
          RelaFromIsRun(Store64(m, reloc_addr, Plus(base, Load64(m, st_value))), base, dyn, offs + ent);
          RelaFromIsRun(Store64(m, reloc_addr, Plus(base, e.addend)), base, dyn, offs + ent);
        }
      }
    }
  }

  lemma {:induction false} JmprelFromIsRun(m: Memory, base: U64, dyn: Dyn, offs: nat)
    ensures JmprelFrom(m, base, dyn, offs) ==
            RunSlots(m, ImageOf(base, dyn),
                     Slots(Plus(base, dyn[DT_JMPREL]) + offs, RELA_SIZE, Left(dyn[DT_PLTRELSZ], offs), true))
    decreases Left(dyn[DT_PLTRELSZ], offs)
  {
    hide Load, Store, Load64, Store64, ReadEntry, Plus, SymAt, SymValueAt;
    var table, size := Plus(base, dyn[DT_JMPREL]), dyn[DT_PLTRELSZ];
    if offs < size {
      SlotsStep(table, RELA_SIZE, size, offs, true);
      hide Slots;
      var rela := table + offs;
      if Mapped(m, rela, RELA_SIZE) {
        var e := ReadEntry(m, rela);
        SymValueIsSymAt(base, dyn, e.sym);
        var st_value, reloc_addr := SymValueAt(base, dyn, e.sym), Plus(base, e.offset);
        JmprelFromIsRun(m, base, dyn, offs + RELA_SIZE);
        if Mapped(m, st_value, 8) && Mapped(m, reloc_addr, 8) {
          JmprelFromIsRun(Store64(m, reloc_addr, Plus(base, Load64(m, st_value))), base, dyn, offs + RELA_SIZE);
        }
      }
    }
  }

  lemma AppRelaIsRun(m: Memory, base: U64, dyn: Dyn)
    requires Walkable(dyn)
    ensures AppRela(m, base, dyn) == RunSlots(m, ImageOf(base, dyn), RelaSlots(base, dyn))
  {
    hide RunSlots, Slots, Load, Store, Plus;
    NothingToRun(m, ImageOf(base, dyn));
    if dyn[DT_RELA] != 0 {
      if dyn[DT_RELASZ] > 0 {
        RelaFromIsRun(m, base, dyn, 0);
        hide RelaFrom;
      }
    }
  }

  lemma AppJmprelIsRun(m: Memory, base: U64, dyn: Dyn)
    ensures AppJmprel(m, base, dyn) ==
            if PltIsRel(dyn) then Exited(1, m) else RunSlots(m, ImageOf(base, dyn), PltSlots(base, dyn))
  {
    hide JmprelFrom, RunSlots, Slots, Load, Store, Plus;
    NothingToRun(m, ImageOf(base, dyn));
    JmprelFromIsRun(m, base, dyn, 0);
  }

  /** The second implementation does what the first does, fault for fault and exit for exit, unless
    REL entries stop it with status 0. */
  lemma AppIsSelf(m: Memory, base: U64, dyn: Dyn)
    requires Walkable(dyn)
    ensures RelocateApp(m, base, dyn) ==
            if dyn[DT_REL] != 0 && dyn[DT_RELSZ] > 0 then Exited(0, m) else RelocateSelf(m, base, dyn)
  {
    hide AppRela, AppJmprel, RunSlots, ImageOf, RelaSlots, PltSlots, PltIsRel;
    AppRelaIsRun(m, base, dyn);
    match AppRela(m, base, dyn)
    case Running(m1) => AppJmprelIsRun(m1, base, dyn);
    case _ =>
  }
}
