/** The loaders' own loops: decoding the dynamic vector and applying the relocations in place,
  loader/loader-self-reloc.c and loader/loader.c. */
module LoaderReloc {
  import opened Machine
  import opened Reloc
  import opened RelocRuns
  import opened RelocApp
  import opened RelocBases
  import RelocAbi

  // ---------- the dynamic vector ----------

  ghost predicate Vector(m: Memory, dynv: nat, n: nat) {
    Mapped(m, dynv, n * DYN_SIZE)
  }

  lemma EntryMapped(m: Memory, dynv: nat, n: nat, i: nat)
    requires Vector(m, dynv, n) && i < n
    ensures Mapped(m, dynv + i * DYN_SIZE, 8) && Mapped(m, dynv + i * DYN_SIZE + 8, 8)
  {
    assert (i + 1) * DYN_SIZE <= n * DYN_SIZE;
  }

  ghost function TagAt(m: Memory, dynv: nat, n: nat, i: nat): U64
    requires Vector(m, dynv, n) && i < n
  {
    EntryMapped(m, dynv, n, i);
    Load64(m, dynv + i * DYN_SIZE)
  }

  ghost function ValueAt(m: Memory, dynv: nat, n: nat, i: nat): U64
    requires Vector(m, dynv, n) && i < n
  {
    EntryMapped(m, dynv, n, i);
    Load64(m, dynv + i * DYN_SIZE + 8)
  }

  /** The last of the vector's `n` entries, and no other, has tag DT_NULL. */
  ghost predicate Terminated(m: Memory, dynv: nat, n: nat) {
    && n > 0 && Vector(m, dynv, n)
    && TagAt(m, dynv, n, n - 1) == DT_NULL
    && forall i :: 0 <= i < n - 1 ==> TagAt(m, dynv, n, i) != DT_NULL
  }

  const TWO_TO_THE_63: nat := 0x8000_0000_0000_0000

  ghost predicate TagsNonNegative(m: Memory, dynv: nat, n: nat)
    requires Vector(m, dynv, n)
  {
    forall i :: 0 <= i < n ==> TagAt(m, dynv, n, i) < TWO_TO_THE_63
  }

  /** `v` is what the first `k` entries say about `tag`: the value of the last one with that tag, or
    0 without one. */
  ghost predicate Says(m: Memory, dynv: nat, n: nat, k: nat, tag: nat, v: U64)
    requires Vector(m, dynv, n) && k <= n
  {
    || (v == 0 && forall i :: 0 <= i < k ==> TagAt(m, dynv, n, i) != tag)
    || (exists i :: 0 <= i < k && TagAt(m, dynv, n, i) == tag && ValueAt(m, dynv, n, i) == v
                    && forall j :: i < j < k ==> TagAt(m, dynv, n, j) != tag)
  }

  /** `dyn` is the decoded vector; slot 0 is left open since the loaders use it differently. */
  ghost predicate Decodes(m: Memory, dynv: nat, n: nat, dyn: Dyn)
    requires Terminated(m, dynv, n)
  {
    forall tag :: 0 < tag < DYN_CNT ==> Says(m, dynv, n, n - 1, tag, dyn[tag])
  }

  /** That leaves no choice. */
  lemma DecodedOnce(m: Memory, dynv: nat, n: nat, d: Dyn, e: Dyn)
    requires Terminated(m, dynv, n) && Decodes(m, dynv, n, d) && Decodes(m, dynv, n, e)
    ensures d[1..] == e[1..]
  {
    forall tag | 0 < tag < DYN_CNT ensures d[tag] == e[tag] {
      assert Says(m, dynv, n, n - 1, tag, d[tag]) && Says(m, dynv, n, n - 1, tag, e[tag]);
    }
  }

  /** Both loaders do the same to an image, although they decode its dynamic vector differently,
    unless it has REL entries, which stop the second one with status 0. */
  lemma LoadersAgree(m: Memory, base: U64, dynv: nat, n: nat, d: Dyn, e: Dyn)
    requires Terminated(m, dynv, n) && Decodes(m, dynv, n, d) && Decodes(m, dynv, n, e)
    requires Walkable(d)
    ensures Walkable(e)
    ensures RelocateApp(m, base, e) ==
            if d[DT_REL] != 0 && d[DT_RELSZ] > 0 then Exited(0, m) else RelocateSelf(m, base, d)
  {
    DecodedOnce(m, dynv, n, d, e);
    hide RunSlots, Slots, Decodes, Terminated, RelocateApp;
    SameTables(base, d, e);
    AppIsSelf(m, base, e);
    hide ImageOf, PltSlots, RelaSlots, PltIsRel, Walkable;
  }

  lemma SameTables(base: U64, d: Dyn, e: Dyn)
    requires d[1..] == e[1..] && Walkable(d)
    ensures Walkable(e) && ImageOf(base, d) == ImageOf(base, e) && PltIsRel(d) == PltIsRel(e)
    ensures RelaSlots(base, d) == RelaSlots(base, e) && PltSlots(base, d) == PltSlots(base, e)
    ensures d[DT_REL] == e[DT_REL] && d[DT_RELSZ] == e[DT_RELSZ]
  {
    SameFromOne(d, e);
    hide Slots;
  }

  lemma SameFromOne(d: Dyn, e: Dyn)
    requires d[1..] == e[1..]
    ensures forall k :: 0 < k < DYN_CNT ==> d[k] == e[k]
  {
    forall k | 0 < k < DYN_CNT ensures d[k] == e[k] {
      assert d[k] == d[1..][k - 1] && e[k] == e[1..][k - 1];
    }
  }

  lemma SaysNext(m: Memory, dynv: nat, n: nat, k: nat, tag: nat, v: U64)
    requires Vector(m, dynv, n) && k < n && Says(m, dynv, n, k, tag, v)
    ensures Says(m, dynv, n, k + 1, tag, if TagAt(m, dynv, n, k) == tag then ValueAt(m, dynv, n, k) else v)
  {
    hide TagAt, ValueAt;
    if TagAt(m, dynv, n, k) != tag && exists i :: 0 <= i < k && TagAt(m, dynv, n, i) == tag {
      var i :| 0 <= i < k && TagAt(m, dynv, n, i) == tag && ValueAt(m, dynv, n, i) == v
               && forall j :: i < j < k ==> TagAt(m, dynv, n, j) != tag;
      forall j | i < j < k + 1 ensures TagAt(m, dynv, n, j) != tag {
      }
    }
  }

  /** One entry more. */
  lemma SaysAllNext(m: Memory, dynv: nat, n: nat, i: nat, before: Dyn, after: Dyn)
    requires Vector(m, dynv, n) && i < n
    requires forall k :: 0 < k < DYN_CNT ==> Says(m, dynv, n, i, k, before[k])
    requires forall k :: 0 < k < DYN_CNT ==>
               after[k] == if TagAt(m, dynv, n, i) == k then ValueAt(m, dynv, n, i) else before[k]
    ensures forall k :: 0 < k < DYN_CNT ==> Says(m, dynv, n, i + 1, k, after[k])
  {
    hide Says, TagAt, ValueAt, Vector;
    forall k | 0 < k < DYN_CNT ensures Says(m, dynv, n, i + 1, k, after[k]) {
      SaysNext(m, dynv, n, i, k, before[k]);
    }
  }

  // ---------- a set of tags in a word ----------

  /** The C operator `|`. */
  function BitOr(x: nat, y: nat): (r: nat)
    ensures r >= x
    decreases x + y
  {
    if x == 0 && y == 0 then 0
    else 2 * BitOr(x / 2, y / 2) + (if x % 2 == 1 || y % 2 == 1 then 1 else 0)
  }

  predicate Bit(x: nat, k: nat) {
    if k == 0 then x % 2 == 1 else Bit(x / 2, k - 1)
  }

  lemma {:induction false} BitOfZero(k: nat)
    ensures !Bit(0, k)
  {
    if k > 0 {
      BitOfZero(k - 1);
    }
  }

  lemma {:induction false} BitOfOr(x: nat, y: nat, k: nat)
    ensures Bit(BitOr(x, y), k) <==> Bit(x, k) || Bit(y, k)
    decreases k
  {
    if x == 0 && y == 0 {
    } else {
      var h := BitOr(x / 2, y / 2);
      assert BitOr(x, y) / 2 == h;
      if k > 0 {
        BitOfOr(x / 2, y / 2, k - 1);
      }
    }
  }

  lemma {:induction false} BitOfPow2(j: nat, k: nat)
    ensures Bit(Pow2(j), k) <==> j == k
    decreases k
  {
    if j == 0 {
      if k > 0 {
        BitOfZero(k - 1);
      }
    } else {
      assert Pow2(j) / 2 == Pow2(j - 1) && Pow2(j) % 2 == 0;
      if k > 0 {
        BitOfPow2(j - 1, k - 1);
      }
    }
  }

  lemma {:induction false} OrBound(x: nat, y: nat, w: nat)
    requires x < Pow2(w) && y < Pow2(w)
    ensures BitOr(x, y) < Pow2(w)
    decreases w
  {
    if w > 0 {
      OrBound(x / 2, y / 2, w - 1);
    }
  }

  /** `mask` is a 64-bit word with exactly the bits of the tags among the first `k` entries. */
  ghost predicate MaskOfTags(m: Memory, dynv: nat, n: nat, k: nat, mask: U64)
    requires Vector(m, dynv, n) && k <= n
  {
    forall tag :: 0 <= tag < DYN_CNT ==> (Bit(mask, tag) <==> exists i :: 0 <= i < k && TagAt(m, dynv, n, i) == tag)
  }

  lemma TagFits(tag: nat)
    requires tag < DYN_CNT
    ensures Pow2(tag) < TWO_TO_THE_64
  {
    Pow2At64();
    Pow2Monotone(tag, 63);
    assert Pow2(64) == 2 * Pow2(63);
  }

  lemma MaskNext(m: Memory, dynv: nat, n: nat, k: nat, mask: U64)
    requires Vector(m, dynv, n) && k < n && MaskOfTags(m, dynv, n, k, mask)
    ensures TagAt(m, dynv, n, k) >= DYN_CNT ==> MaskOfTags(m, dynv, n, k + 1, mask)
    ensures TagAt(m, dynv, n, k) < DYN_CNT ==>
              && BitOr(mask, Pow2(TagAt(m, dynv, n, k))) < TWO_TO_THE_64
              && MaskOfTags(m, dynv, n, k + 1, BitOr(mask, Pow2(TagAt(m, dynv, n, k))))
  {
    var t := TagAt(m, dynv, n, k);
    hide TagAt, Pow2, BitOr, Bit;
    if t < DYN_CNT {
      TagFits(t);
      Pow2At64();
      OrBound(mask, Pow2(t), 64);
      forall tag | 0 <= tag < DYN_CNT
        ensures Bit(BitOr(mask, Pow2(t)), tag) <==> exists i :: 0 <= i < k + 1 && TagAt(m, dynv, n, i) == tag
      {
        BitOfOr(mask, Pow2(t), tag);
        BitOfPow2(t, tag);
      }
    }
  }

  // ---------- the loaders ----------

  /** What the loops do with the first entry of a table. */
  lemma RelaStep(m: Memory, img: Image, at: nat, ent: nat, size: nat, offs: nat)
    requires ent > 0 && offs < size
    requires !RunSlots(m, img, Slots(at + offs, ent, Left(size, offs), false)).Fault?
    ensures Mapped(m, at + offs, RELA_SIZE) && Mapped(m, SymAt(img, ReadEntry(m, at + offs).sym), 8)
    ensures var e := ReadEntry(m, at + offs);
            var now, rest := Slots(at + offs, ent, Left(size, offs), false), Slots(at + (offs + ent), ent, Left(size, offs + ent), false);
            var target, sym_addr := Addr(img, e.offset), Addr(img, Load64(m, SymAt(img, e.sym)));
            if e.kind == R_X86_64_GLOB_DAT then
              Mapped(m, target, 8) && RunSlots(m, img, now) == RunSlots(Store64(m, target, sym_addr), img, rest)
            else if e.kind == R_X86_64_RELATIVE then
              Mapped(m, target, 8) && RunSlots(m, img, now) == RunSlots(Store64(m, target, Addr(img, e.addend)), img, rest)
            else RunSlots(m, img, now) == Exited(1, m)
  {
    hide Load, Store, SymAt;
    SlotsStep(at, ent, size, offs, false);
    hide Slots;
  }

  lemma JmprelStep(m: Memory, img: Image, at: nat, size: nat, offs: nat)
    requires offs < size
    requires !RunSlots(m, img, Slots(at + offs, RELA_SIZE, Left(size, offs), true)).Fault?
    ensures Mapped(m, at + offs, RELA_SIZE)
    ensures var e := ReadEntry(m, at + offs);
            var now, rest := Slots(at + offs, RELA_SIZE, Left(size, offs), true), Slots(at + (offs + RELA_SIZE), RELA_SIZE, Left(size, offs + RELA_SIZE), true);
            if e.kind == R_X86_64_JUMP_SLOT then
              var target := Addr(img, e.offset);
              && Mapped(m, SymAt(img, e.sym), 8) && Mapped(m, target, 8)
              && RunSlots(m, img, now) == RunSlots(Store64(m, target, Addr(img, Load64(m, SymAt(img, e.sym)))), img, rest)
            else RunSlots(m, img, now) == RunSlots(m, img, rest)
  {
    hide Load, Store, SymAt;
    SlotsStep(at, RELA_SIZE, size, offs, true);
    hide Slots;
  }

  /** The memory after a pass that returned, or exited with the given status. */
  datatype Exit = Returned | Status(code: nat)

  function After(e: Exit, m: Memory): Outcome {
    match e
    case Returned => Running(m)
    case Status(code) => Exited(code, m)
  }

  /** The fields of the loader's record of an image that its relocation uses. */
  class Elf_Image {
    var base: U64
    var dyn: array<U64>

    constructor (base: U64, dyn: array<U64>)
      ensures this.base == base && this.dyn == dyn
    {
      this.base, this.dyn := base, dyn;
    }
  }

  class Process {
    var mem: Memory

    /** The address space at program start. */
    constructor (m: Memory)
      ensures mem == m
    {
      mem := m;
    }

    method EmptyVector() returns (dyn: array<U64>)
      ensures fresh(dyn) && dyn.Length == DYN_CNT && forall k :: 0 <= k < DYN_CNT ==> dyn[k] == 0
    {
      dyn := new U64[37];
      for i := 0 to DYN_CNT
        invariant forall k :: 0 <= k < i ==> dyn[k] == 0
      {
        dyn[i] := 0;
      }
    }

    /** ld_stage1_entry reads the vector by unsigned tags. */
    method DecodeSelf(dynv: nat, ghost n: nat) returns (dyn: array<U64>)
      requires Terminated(mem, dynv, n)
      ensures fresh(dyn) && dyn.Length == DYN_CNT
      ensures Decodes(mem, dynv, n, dyn[..]) && dyn[0] == 0
    {
      dyn := EmptyVector();
      hide TagAt, ValueAt, Says;
      forall k | 0 < k < DYN_CNT ensures Says(mem, dynv, n, 0, k, dyn[k]) {
        SaysNothing(mem, dynv, n, k);
      }
      var i := 0;
      while TagRead(dynv, n, i) != DT_NULL
        invariant 0 <= i <= n - 1
        invariant forall k :: 0 < k < DYN_CNT ==> Says(mem, dynv, n, i, k, dyn[k])
        invariant dyn[0] == 0
        decreases n - 1 - i
      {
        ghost var before := dyn[..];
        var dyn_tag := TagRead(dynv, n, i);
        if dyn_tag < DYN_CNT {
          dyn[dyn_tag] := ValueRead(dynv, n, i);
        }
        SaysAllNext(mem, dynv, n, i, before, dyn[..]);
        i := i + 1;
      }
    }

    /** ld_stage2_entry reads it by signed tags, and also collects the tags it finds in dyn[0]. It is
      not `ok` if it comes to a tag from 2^63 on, which is negative and indexes outside the array. */
    method DecodeApp(dynv: nat, ghost n: nat) returns (ok: bool, dyn: array<U64>)
      requires Terminated(mem, dynv, n)
      ensures fresh(dyn) && dyn.Length == DYN_CNT
      ensures ok <==> TagsNonNegative(mem, dynv, n)
      ensures ok ==> Decodes(mem, dynv, n, dyn[..]) && MaskOfTags(mem, dynv, n, n - 1, dyn[0])
    {
      dyn := EmptyVector();
      hide TagAt, ValueAt, Says, MaskOfTags, Bit, BitOr, Pow2;
      NoTagsYet(mem, dynv, n);
      forall k | 0 < k < DYN_CNT ensures Says(mem, dynv, n, 0, k, dyn[k]) {
        SaysNothing(mem, dynv, n, k);
      }
      var i := 0;
      while TagRead(dynv, n, i) != DT_NULL
        invariant 0 <= i <= n - 1
        invariant forall k :: 0 < k < DYN_CNT ==> Says(mem, dynv, n, i, k, dyn[k])
        invariant MaskOfTags(mem, dynv, n, i, dyn[0])
        invariant forall k :: 0 <= k < i ==> TagAt(mem, dynv, n, k) < TWO_TO_THE_63
        decreases n - 1 - i
      {
        ghost var before := dyn[..];
        MaskNext(mem, dynv, n, i, dyn[0]);
        var d_tag := TagRead(dynv, n, i);
        if d_tag >= TWO_TO_THE_63 {
          ok := false;
          return;
        }
        if d_tag < DYN_CNT {
          dyn[0] := BitOr(dyn[0], Pow2(d_tag));
          dyn[d_tag] := ValueRead(dynv, n, i);
        }
        SaysAllNext(mem, dynv, n, i, before, dyn[..]);
        i := i + 1;
      }
      ok := true;
    }

    function TagRead(dynv: nat, ghost n: nat, i: nat): (t: U64)
      requires Vector(mem, dynv, n) && i < n
      reads this
      ensures t == TagAt(mem, dynv, n, i)
    {
      EntryMapped(mem, dynv, n, i);
      Load64(mem, dynv + i * DYN_SIZE)
    }

    function ValueRead(dynv: nat, ghost n: nat, i: nat): (v: U64)
      requires Vector(mem, dynv, n) && i < n
      reads this
      ensures v == ValueAt(mem, dynv, n, i)
    {
      EntryMapped(mem, dynv, n, i);
      Load64(mem, dynv + i * DYN_SIZE + 8)
    }

    /** The RELA loop. */
    method RelaLoop(base: U64, symtab: nat, rela_ents: nat, rela_ent: U64, rela_size: U64) returns (e: Exit)
      requires rela_size > 0 ==> rela_ent > 0 && rela_size + rela_ent <= TWO_TO_THE_64
      requires rela_size > 0 ==> !RunSlots(mem, Image(base, symtab), Slots(rela_ents, rela_ent, rela_size, false)).Fault?
      modifies this
      ensures After(e, mem) ==
              if rela_size == 0 then Running(old(mem))
              else RunSlots(old(mem), Image(base, symtab), Slots(rela_ents, rela_ent, rela_size, false))
    {
      hide RunSlots, Load, Store, SymAt, Load64, Store64;
      var img := Image(base, symtab);
      var rela_offs: nat := 0;
      while rela_offs < rela_size
        invariant rela_size == 0 ==> mem == old(mem)
        invariant rela_size > 0 ==>
                    RunSlots(mem, img, Slots(rela_ents + rela_offs, rela_ent, Left(rela_size, rela_offs), false)) ==
                    RunSlots(old(mem), img, Slots(rela_ents, rela_ent, rela_size, false))
        decreases Left(rela_size, rela_offs)
      {
        RelaStep(mem, img, rela_ents, rela_ent, rela_size, rela_offs);
        var rela := rela_ents + rela_offs;
        var reloc_offs := Load64(mem, rela);
        var kind := R_Type(Load64(mem, rela + 8));
        var sym := R_Sym(Load64(mem, rela + 8));
        var addend := Load64(mem, rela + 16);
        assert ReadEntry(mem, rela) == Entry(reloc_offs, kind, sym, addend);
        var sym_addr := Plus(base, Load64(mem, SymAt(img, sym)));
        var reloc_addr := Plus(base, reloc_offs);
        if kind == R_X86_64_GLOB_DAT {
          mem := Store64(mem, reloc_addr, sym_addr);
        } else if kind == R_X86_64_RELATIVE {
          mem := Store64(mem, reloc_addr, Plus(base, addend));
        } else {
          return Status(1);
        }
        rela_offs := Plus(rela_offs, rela_ent);
      }
      if rela_size > 0 {
        NoSlots(mem, img, rela_ents + rela_offs, rela_ent, false);
      }
      e := Returned;
    }

    /** The JMPREL loop. */
    method JmprelLoop(base: U64, symtab: nat, rela_plt: nat, rela_size: U64)
      requires rela_size + RELA_SIZE <= TWO_TO_THE_64
      requires !RunSlots(mem, Image(base, symtab), Slots(rela_plt, RELA_SIZE, rela_size, true)).Fault?
      modifies this
      ensures Running(mem) == RunSlots(old(mem), Image(base, symtab), Slots(rela_plt, RELA_SIZE, rela_size, true))
    {
      hide RunSlots, Load, Store, SymAt, Load64, Store64;
      var img := Image(base, symtab);
      var rela_offs: nat := 0;
      while rela_offs < rela_size
        invariant RunSlots(mem, img, Slots(rela_plt + rela_offs, RELA_SIZE, Left(rela_size, rela_offs), true)) ==
                  RunSlots(old(mem), img, Slots(rela_plt, RELA_SIZE, rela_size, true))
        decreases Left(rela_size, rela_offs)
      {
        JmprelStep(mem, img, rela_plt, rela_size, rela_offs);
        var rela := rela_plt + rela_offs;
        var reloc_offs := Load64(mem, rela);
        var sym_idx := R_Sym(Load64(mem, rela + 8));
        var kind := R_Type(Load64(mem, rela + 8));
        assert ReadEntry(mem, rela) == Entry(reloc_offs, kind, sym_idx, Load64(mem, rela + 16));
        if kind == R_X86_64_JUMP_SLOT {
          var sym_addr := Plus(base, Load64(mem, SymAt(img, sym_idx)));
          var reloc_addr := Plus(base, reloc_offs);
          mem := Store64(mem, reloc_addr, sym_addr);
        }
        rela_offs := Plus(rela_offs, RELA_SIZE);
      }
      NoSlots(mem, img, rela_plt + rela_offs, RELA_SIZE, true);
    }

    method RelaPass(base: U64, dyn: array<U64>) returns (e: Exit)
      requires dyn.Length == DYN_CNT && Walkable(dyn[..]) && SizesFit(dyn[..])
      requires !RunSlots(mem, ImageOf(base, dyn[..]), RelaSlots(base, dyn[..])).Fault?
      modifies this
      ensures After(e, mem) == RunSlots(old(mem), ImageOf(base, dyn[..]), RelaSlots(base, dyn[..]))
    {
      NothingToRun(mem, ImageOf(base, dyn[..]));
      hide Slots, RunSlots;
      if dyn[DT_RELA] != 0 {
        var symtab := Plus(base, dyn[DT_SYMTAB]);
        var rela_ents := Plus(base, dyn[DT_RELA]);
        e := RelaLoop(base, symtab, rela_ents, dyn[DT_RELAENT], dyn[DT_RELASZ]);
      } else {
        e := Returned;
      }
    }

    method JmprelPass(base: U64, dyn: array<U64>) returns (e: Exit)
      requires dyn.Length == DYN_CNT && SizesFit(dyn[..])
      requires !PltIsRel(dyn[..]) ==> !RunSlots(mem, ImageOf(base, dyn[..]), PltSlots(base, dyn[..])).Fault?
      modifies this
      ensures After(e, mem) ==
              if PltIsRel(dyn[..]) then Exited(1, old(mem))
              else RunSlots(old(mem), ImageOf(base, dyn[..]), PltSlots(base, dyn[..]))
    {
      NothingToRun(mem, ImageOf(base, dyn[..]));
      hide Slots, RunSlots;
      if dyn[DT_PLTGOT] != 0 {
        if dyn[DT_PLTREL] == DT_REL {
          return Status(1);
        }
        var symtab := Plus(base, dyn[DT_SYMTAB]);
        var rela_plt := Plus(base, dyn[DT_JMPREL]);
        JmprelLoop(base, symtab, rela_plt, dyn[DT_PLTRELSZ]);
      }
      e := Returned;
    }

    /** The RELA and JMPREL parts together. */
    method Passes(base: U64, dyn: array<U64>) returns (e: Exit)
      requires dyn.Length == DYN_CNT && Walkable(dyn[..]) && SizesFit(dyn[..])
      requires !RelocateSelf(mem, base, dyn[..]).Fault?
      modifies this
      ensures After(e, mem) == RelocateSelf(old(mem), base, dyn[..])
    {
      hide Slots, RunSlots, RelaSlots, PltSlots, ImageOf, SizesFit, Walkable, PltIsRel;
      e := RelaPass(base, dyn);
      if e == Returned {
        e := JmprelPass(base, dyn);
      }
    }

    /** The relocations of ld_stage1_entry. Its REL loop only walks its table. */
    method SelfRelocate(base: U64, dyn: array<U64>) returns (e: Exit)
      requires dyn.Length == DYN_CNT && Walkable(dyn[..]) && SizesFit(dyn[..])
      requires !RelocateSelf(mem, base, dyn[..]).Fault?
      modifies this
      ensures After(e, mem) == RelocateSelf(old(mem), base, dyn[..])
    {
      RelWalk(dyn[..]);
      hide RelocateSelf, Walkable, SizesFit, Plus;
      if dyn[DT_REL] != 0 {
        var rel_offs: nat := 0;
        while rel_offs < dyn[DT_RELSZ]
          invariant mem == old(mem)
          decreases Left(dyn[DT_RELSZ], rel_offs)
        {
          PlusIsSum(rel_offs, dyn[DT_RELENT]);
          rel_offs := Plus(rel_offs, dyn[DT_RELENT]);
        }
      }
      e := Passes(base, dyn);
    }

    /** The RELA loop of ld_stage2_entry. */
    method AppRelaLoop(app: Elf_Image) returns (e: Exit)
      requires app.dyn.Length == DYN_CNT && SizesFit(app.dyn[..])
      requires app.dyn[DT_RELASZ] > 0 ==> app.dyn[DT_RELAENT] > 0
      requires !RelaFrom(mem, app.base, app.dyn[..], 0).Fault?
      modifies this
      ensures After(e, mem) == RelaFrom(old(mem), app.base, app.dyn[..], 0)
    {
      hide Load, Store, Load64, Store64, Plus, SizesFit;
      ghost var d: Dyn := app.dyn[..];
      var rela_ents := Plus(app.base, app.dyn[DT_RELA]);
      var rela_ent := app.dyn[DT_RELAENT];
      var rela_size := app.dyn[DT_RELASZ];
      var rela_offs: nat := 0;
      NoWrap(d);
      while rela_offs < rela_size
        invariant RelaFrom(mem, app.base, d, rela_offs) == RelaFrom(old(mem), app.base, d, 0)
        decreases Left(rela_size, rela_offs)
      {
        var rela := rela_ents + rela_offs;
        var reloc_offs := Load64(mem, rela);
        var addend := Load64(mem, rela + 16);
        var kind := R_Type(Load64(mem, rela + 8));
        var sym := R_Sym(Load64(mem, rela + 8));
        assert ReadEntry(mem, rela) == Entry(reloc_offs, kind, sym, addend);
        var st_value := SymValueAt(app.base, app.dyn[..], sym);
        var sym_addr := Plus(app.base, Load64(mem, st_value));
        var reloc_addr := Plus(app.base, reloc_offs);
        if kind == R_X86_64_GLOB_DAT {
          mem := Store64(mem, reloc_addr, sym_addr);
        } else if kind == R_X86_64_RELATIVE {
          mem := Store64(mem, reloc_addr, Plus(app.base, addend));
        } else {
          return Status(1);
        }
        PlusIsSum(rela_offs, rela_ent);
        rela_offs := Plus(rela_offs, rela_ent);
      }
      e := Returned;
    }

    /** The JMPREL loop of ld_stage2_entry. */
    method AppJmprelLoop(app: Elf_Image)
      requires app.dyn.Length == DYN_CNT && SizesFit(app.dyn[..])
      requires !JmprelFrom(mem, app.base, app.dyn[..], 0).Fault?
      modifies this
      ensures Running(mem) == JmprelFrom(old(mem), app.base, app.dyn[..], 0)
    {
      hide Load, Store, Load64, Store64, Plus, SizesFit;
      ghost var d: Dyn := app.dyn[..];
      var rela_plt := Plus(app.base, app.dyn[DT_JMPREL]);
      var rela_size := app.dyn[DT_PLTRELSZ];
      var rela_offs: nat := 0;
      NoWrap(d);
      while rela_offs < rela_size
        invariant JmprelFrom(mem, app.base, d, rela_offs) == JmprelFrom(old(mem), app.base, d, 0)
        decreases Left(rela_size, rela_offs)
      {
        var rela := rela_plt + rela_offs;
        var reloc_offs := Load64(mem, rela);
        var sym_idx := R_Sym(Load64(mem, rela + 8));
        var kind := R_Type(Load64(mem, rela + 8));
        assert ReadEntry(mem, rela) == Entry(reloc_offs, kind, sym_idx, Load64(mem, rela + 16));
        if kind == R_X86_64_JUMP_SLOT {
          var st_value := SymValueAt(app.base, app.dyn[..], sym_idx);
          var sym_addr := Plus(app.base, Load64(mem, st_value));
          var reloc_addr := Plus(app.base, reloc_offs);
          mem := Store64(mem, reloc_addr, sym_addr);
        }
        PlusIsSum(rela_offs, RELA_SIZE);
        rela_offs := Plus(rela_offs, RELA_SIZE);
      }
    }

    /** The relocations of ld_stage2_entry, whose REL loop gives up at the first entry. */
    method AppRelocate(app: Elf_Image) returns (e: Exit)
      requires app.dyn.Length == DYN_CNT && Walkable(app.dyn[..]) && SizesFit(app.dyn[..])
      requires !RelocateApp(mem, app.base, app.dyn[..]).Fault?
      modifies this
      ensures After(e, mem) == RelocateApp(old(mem), app.base, app.dyn[..])
    {
      hide RelaFrom, JmprelFrom, SizesFit;
      if app.dyn[DT_REL] != 0 {
        if 0 < app.dyn[DT_RELSZ] {
          return Status(0);
        }
      }
      if app.dyn[DT_RELA] != 0 {
        e := AppRelaLoop(app);
        if e != Returned {
          return;
        }
      }
      if app.dyn[DT_PLTGOT] != 0 {
        if app.dyn[DT_PLTREL] == DT_REL {
          return Status(1);
        }
        AppJmprelLoop(app);
      }
      e := Returned;
    }

    /** An image whose tables are well-formed ends up relocated, whatever its dynamic vector lists
      beside the tables. */
    method LoadSelf(base: U64, dynv: nat, ghost n: nat) returns (e: Exit, dyn: array<U64>)
      requires Terminated(mem, dynv, n)
      requires forall d: Dyn :: Decodes(mem, dynv, n, d) ==>
                 Walkable(d) && SizesFit(d) && !PltIsRel(d) && Loadable(mem, base, d)
      modifies this
      ensures dyn.Length == DYN_CNT && Decodes(old(mem), dynv, n, dyn[..])
      ensures Walkable(dyn[..]) && Loadable(old(mem), base, dyn[..])
      ensures e == Returned && Relocated(old(mem), mem, ImageOf(base, dyn[..]), AllSlots(base, dyn[..]))
      ensures RelocAbi.ImageDone(old(mem), mem, base, dyn[..])
    {
      hide Decodes, Relocated, RelocateSelf, RelocateApp, AllSlots, RunSlots, Loadable, RelocAbi.ImageDone;
      dyn := DecodeSelf(dynv, n);
      ghost var was := mem;
      LoadersRelocate(mem, base, dyn[..]);
      e := SelfRelocate(base, dyn);
      RelocAbi.RelocatedIsDone(was, mem, base, dyn[..]);
    }

    /** The same for the application, given that it has no REL entries. */
    method LoadApp(base: U64, dynv: nat, ghost n: nat) returns (e: Exit, dyn: array<U64>)
      requires Terminated(mem, dynv, n) && TagsNonNegative(mem, dynv, n)
      requires forall d: Dyn :: Decodes(mem, dynv, n, d) ==>
                 && Walkable(d) && SizesFit(d) && !PltIsRel(d) && Loadable(mem, base, d)
                 && (d[DT_REL] == 0 || d[DT_RELSZ] == 0)
      modifies this
      ensures dyn.Length == DYN_CNT && Decodes(old(mem), dynv, n, dyn[..])
      ensures Walkable(dyn[..]) && Loadable(old(mem), base, dyn[..])
      ensures e == Returned && Relocated(old(mem), mem, ImageOf(base, dyn[..]), AllSlots(base, dyn[..]))
      ensures RelocAbi.ImageDone(old(mem), mem, base, dyn[..])
    {
      hide Decodes, Relocated, RelocateSelf, RelocateApp, AllSlots, RunSlots, Loadable, RelocAbi.ImageDone;
      var ok;
      ok, dyn := DecodeApp(dynv, n);
      ghost var was := mem;
      LoadersRelocate(mem, base, dyn[..]);
      var app := new Elf_Image(base, dyn);
      e := AppRelocate(app);
      RelocAbi.RelocatedIsDone(was, mem, base, dyn[..]);
    }
  }

  /** The offset of the entry after the last one does not wrap. */
  predicate SizesFit(dyn: Dyn) {
    && dyn[DT_RELASZ] + dyn[DT_RELAENT] <= TWO_TO_THE_64
    && dyn[DT_RELSZ] + dyn[DT_RELENT] <= TWO_TO_THE_64
    && dyn[DT_PLTRELSZ] + RELA_SIZE <= TWO_TO_THE_64
  }

  lemma NoWrap(dyn: Dyn)
    requires SizesFit(dyn)
    ensures dyn[DT_RELASZ] + dyn[DT_RELAENT] <= TWO_TO_THE_64 && dyn[DT_PLTRELSZ] + RELA_SIZE <= TWO_TO_THE_64
  {
  }

  lemma RelWalk(dyn: Dyn)
    requires Walkable(dyn) && SizesFit(dyn)
    ensures dyn[DT_REL] != 0 && dyn[DT_RELSZ] > 0 ==> dyn[DT_RELENT] > 0
    ensures dyn[DT_RELSZ] + dyn[DT_RELENT] <= TWO_TO_THE_64
  {
  }

  lemma PlusIsSum(x: U64, y: U64)
    requires x + y < TWO_TO_THE_64
    ensures Plus(x, y) == x + y
  {
  }

  lemma SaysNothing(m: Memory, dynv: nat, n: nat, tag: nat)
    requires Vector(m, dynv, n)
    ensures Says(m, dynv, n, 0, tag, 0)
  {
  }

  lemma NoTagsYet(m: Memory, dynv: nat, n: nat)
    requires Vector(m, dynv, n)
    ensures MaskOfTags(m, dynv, n, 0, 0)
  {
    forall k | 0 <= k < DYN_CNT ensures !Bit(0, k) { BitOfZero(k); }
  }
}
