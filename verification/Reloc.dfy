/** The relocation passes of loader/loader.c and loader/loader-self-reloc.c: an in-place change of
  the image's memory that is driven by tables in the same memory. */
module Reloc {
  import opened Machine

  const R_X86_64_GLOB_DAT: nat := 6
  const R_X86_64_JUMP_SLOT: nat := 7
  const R_X86_64_RELATIVE: nat := 8

  const RELA_SIZE: nat := 24
  const SYM_SIZE: nat := 24
  const ST_VALUE: nat := 8

  // ---------- entries ----------

  /** Elf64_Rela: r_offset, the two halves of r_info, and r_addend as an unsigned word. */
  datatype Entry = Entry(offset: U64, kind: U32, sym: U32, addend: U64)

  /** Where an entry lies, and which of the two loops processes it. */
  datatype Slot = Slot(at: nat, plt: bool)

  /** What the loops need to know about the image. */
  datatype Image = Image(base: U64, symtab: nat)

  datatype Write = Write(target: U64, value: U64)

  /** What a loop does with an entry. */
  datatype Effect = Put(w: Write) | Pass | Unhandled

  function R_Type(info: U64): U32 {
    info % 0x1_0000_0000
  }

  function R_Sym(info: U64): U32 {
    info / 0x1_0000_0000
  }

  function ReadEntry(m: Memory, at: nat): Entry
    requires Mapped(m, at, RELA_SIZE)
  {
    var info := Load64(m, at + 8);
    Entry(Load64(m, at), R_Type(info), R_Sym(info), Load64(m, at + 16))
  }

  /** elf_addr: pointer arithmetic from the image's base. */
  function Addr(img: Image, off: U64): U64 {
    Plus(img.base, off)
  }

  function SymAt(img: Image, sym: U32): nat {
    img.symtab + sym * SYM_SIZE + ST_VALUE
  }

  /** The RELA loop looks up every symbol, the JMPREL loop only those of the type it handles. */
  predicate ReadsSymbol(s: Slot, e: Entry) {
    s.plt ==> e.kind == R_X86_64_JUMP_SLOT
  }

  ghost predicate SlotReadable(m: Memory, img: Image, s: Slot) {
    && Mapped(m, s.at, RELA_SIZE)
    && (ReadsSymbol(s, ReadEntry(m, s.at)) ==> Mapped(m, SymAt(img, ReadEntry(m, s.at).sym), 8))
  }

  function EffectOf(m: Memory, img: Image, s: Slot): Effect
    requires SlotReadable(m, img, s)
  {
    var e := ReadEntry(m, s.at);
    if !ReadsSymbol(s, e) then Pass
    else
      var sym_addr := Addr(img, Load64(m, SymAt(img, e.sym)));
      if s.plt || e.kind == R_X86_64_GLOB_DAT then Put(Write(Addr(img, e.offset), sym_addr))
      else if e.kind == R_X86_64_RELATIVE then Put(Write(Addr(img, e.offset), Addr(img, e.addend)))
      else Unhandled
  }

  // ---------- the loops ----------

  /** The memory after the loops, the exit code if the loader gave up, or an access outside mapped
    memory. */
  datatype Outcome = Running(mem: Memory) | Exited(code: nat, mem: Memory) | Fault

  /** The entries one after the other, each read from memory as its predecessors left it. */
  ghost function RunSlots(m: Memory, img: Image, slots: seq<Slot>): Outcome {
    if slots == [] then Running(m)
    else if !SlotReadable(m, img, slots[0]) then Fault
    else
      match EffectOf(m, img, slots[0])
      case Put(w) =>
        if Mapped(m, w.target, 8) then RunSlots(Store64(m, w.target, w.value), img, slots[1..]) else Fault
      case Pass => RunSlots(m, img, slots[1..])
      case Unhandled => Exited(1, m)
  }

  /** The entries of a table of `size` bytes with the given stride. */
  function Slots(table: nat, stride: nat, size: nat, plt: bool): seq<Slot>
    requires stride > 0
    decreases size
  {
    if size == 0 then []
    else [Slot(table, plt)] + Slots(table + stride, stride, if size <= stride then 0 else size - stride, plt)
  }

  lemma {:induction false} RunSlotsAppend(m: Memory, img: Image, a: seq<Slot>, b: seq<Slot>)
    ensures RunSlots(m, img, a + b) == match RunSlots(m, img, a) case Running(m') => RunSlots(m', img, b) case o => o
    decreases |a|
  {
    if a == [] {
      assert a + b == b;
    } else {
      assert (a + b)[1..] == a[1..] + b;
      if SlotReadable(m, img, a[0]) {
        match EffectOf(m, img, a[0])
        case Put(w) =>
          if Mapped(m, w.target, 8) {
            RunSlotsAppend(Store64(m, w.target, w.value), img, a[1..], b);
          }
        case Pass => RunSlotsAppend(m, img, a[1..], b);
        case Unhandled =>
      }
    }
  }

  // ---------- writes without tables ----------

  ghost predicate TargetsMapped(m: Memory, ws: seq<Write>) {
    forall i :: 0 <= i < |ws| ==> Mapped(m, ws[i].target, 8)
  }

  ghost predicate TargetsApart(ws: seq<Write>) {
    forall i, j :: 0 <= i < j < |ws| ==> Apart(ws[i].target, 8, ws[j].target, 8)
  }

  ghost predicate Untouched(a: nat, ws: seq<Write>) {
    forall i :: 0 <= i < |ws| ==> !(ws[i].target <= a < ws[i].target + 8)
  }

  function Apply(m: Memory, ws: seq<Write>): (m': Memory)
    requires TargetsMapped(m, ws)
    ensures m'.Keys == m.Keys
    decreases |ws|
  {
    if ws == [] then m
    else
      assert Mapped(m, ws[0].target, 8);
      var m1 := Store64(m, ws[0].target, ws[0].value);
      assert TargetsMapped(m1, ws[1..]);
      Apply(m1, ws[1..])
  }

  lemma {:induction false} ApplyFrame(m: Memory, ws: seq<Write>, a: nat)
    requires TargetsMapped(m, ws) && a in m && Untouched(a, ws)
    ensures Apply(m, ws)[a] == m[a]
    decreases |ws|
  {
    if ws != [] {
      assert Mapped(m, ws[0].target, 8) && !(ws[0].target <= a < ws[0].target + 8);
      var m1 := Store64(m, ws[0].target, ws[0].value);
      assert Untouched(a, ws[1..]);
      ApplyFrame(m1, ws[1..], a);
    }
  }

  lemma {:induction false} ApplyValue(m: Memory, ws: seq<Write>, k: nat)
    requires TargetsMapped(m, ws) && TargetsApart(ws) && k < |ws|
    ensures Mapped(Apply(m, ws), ws[k].target, 8) && Load64(Apply(m, ws), ws[k].target) == ws[k].value
    decreases |ws|
  {
    assert Mapped(m, ws[0].target, 8);
    var m1 := Store64(m, ws[0].target, ws[0].value);
    assert TargetsApart(ws[1..]);
    if k > 0 {
      ApplyValue(m1, ws[1..], k - 1);
    } else {
      hide Load, Store;
      var t := ws[0].target;
      forall a | t <= a < t + 8 ensures Apply(m1, ws[1..])[a] == m1[a] {
        forall i | 0 <= i < |ws[1..]| ensures !(ws[1..][i].target <= a < ws[1..][i].target + 8) {
          assert Apart(ws[0].target, 8, ws[i + 1].target, 8);
        }
        ApplyFrame(m1, ws[1..], a);
      }
      LoadCongruence(m1, Apply(m1, ws[1..]), t, t, 8);
    }
  }

  /** Equal words consist of equal bytes. */
  lemma {:induction false} LoadInjective(m: Memory, m': Memory, a: nat, b: nat, n: nat, i: nat)
    requires Mapped(m, a, n) && Mapped(m', b, n) && Load(m, a, n) == Load(m', b, n) && i < n
    ensures m[a + i] == m'[b + i]
    decreases n
  {
    assert m[a] == Load(m, a, n) % 0x100 && m'[b] == Load(m', b, n) % 0x100;
    if i > 0 {
      LoadInjective(m, m', a + 1, b + 1, n - 1, i - 1);
    }
  }

  /** The writes are the only difference to `m`, and every one of them is in effect. */
  ghost predicate Written(m: Memory, m': Memory, ws: seq<Write>) {
    && m'.Keys == m.Keys
    && (forall i :: 0 <= i < |ws| ==> Mapped(m', ws[i].target, 8) && Load64(m', ws[i].target) == ws[i].value)
    && (forall a :: a in m && Untouched(a, ws) ==> m'[a] == m[a])
  }

  lemma ApplyWritten(m: Memory, ws: seq<Write>)
    requires TargetsMapped(m, ws) && TargetsApart(ws)
    ensures Written(m, Apply(m, ws), ws)
  {
    hide Load, Store, Load64;
    forall i | 0 <= i < |ws|
      ensures Mapped(Apply(m, ws), ws[i].target, 8) && Load64(Apply(m, ws), ws[i].target) == ws[i].value
    {
      ApplyValue(m, ws, i);
    }
    forall a | a in m && Untouched(a, ws) ensures Apply(m, ws)[a] == m[a] {
      ApplyFrame(m, ws, a);
    }
  }

  /** That determines the memory. */
  lemma WrittenUnique(m: Memory, m1: Memory, m2: Memory, ws: seq<Write>)
    requires Written(m, m1, ws) && Written(m, m2, ws)
    ensures m1 == m2
  {
    hide Load;
    forall a | a in m ensures m1[a] == m2[a] {
      if !Untouched(a, ws) {
        var i :| 0 <= i < |ws| && ws[i].target <= a < ws[i].target + 8;
        LoadInjective(m1, m2, ws[i].target, ws[i].target, 8, a - ws[i].target);
      }
    }
  }

  lemma WrittenPermutes(m: Memory, m': Memory, ws: seq<Write>, vs: seq<Write>)
    requires Written(m, m', ws) && multiset(ws) == multiset(vs)
    ensures Written(m, m', vs)
  {
    hide Load, Load64;
    forall i | 0 <= i < |vs| ensures Mapped(m', vs[i].target, 8) && Load64(m', vs[i].target) == vs[i].value {
      assert vs[i] in multiset(vs);
      assert vs[i] in ws;
    }
    forall a | a in m && Untouched(a, vs) ensures m'[a] == m[a] {
      forall i | 0 <= i < |ws| ensures !(ws[i].target <= a < ws[i].target + 8) {
        assert ws[i] in multiset(ws);
        assert ws[i] in vs;
      }
    }
  }

  /** Writes to targets that do not overlap commute: any order of them gives the same memory. */
  lemma ApplyPermutes(m: Memory, ws: seq<Write>, vs: seq<Write>)
    requires TargetsMapped(m, ws) && TargetsApart(ws) && TargetsMapped(m, vs) && TargetsApart(vs)
    requires multiset(ws) == multiset(vs)
    ensures Apply(m, ws) == Apply(m, vs)
  {
    ApplyWritten(m, ws);
    ApplyWritten(m, vs);
    WrittenPermutes(m, Apply(m, vs), vs, ws);
    WrittenUnique(m, Apply(m, ws), Apply(m, vs), ws);
  }

  // ---------- tables and targets that do not overlap ----------

  /** The target of slot i, if it has one, is apart from the entry and the symbol of slot j. */
  ghost predicate TargetOffTables(m: Memory, img: Image, si: Slot, sj: Slot)
    requires SlotReadable(m, img, si) && SlotReadable(m, img, sj)
  {
    EffectOf(m, img, si).Put? ==>
      var t := EffectOf(m, img, si).w.target;
      && Apart(t, 8, sj.at, RELA_SIZE)
      && (ReadsSymbol(sj, ReadEntry(m, sj.at)) ==> Apart(t, 8, SymAt(img, ReadEntry(m, sj.at).sym), 8))
  }

  /** The tables are readable, and no target lies in an entry or a symbol that is read. */
  ghost predicate Separate(m: Memory, img: Image, slots: seq<Slot>) {
    && (forall i :: 0 <= i < |slots| ==> SlotReadable(m, img, slots[i]))
    && (forall i, j :: 0 <= i < |slots| && 0 <= j < |slots| ==> TargetOffTables(m, img, slots[i], slots[j]))
    && (forall i :: 0 <= i < |slots| && EffectOf(m, img, slots[i]).Put? ==> Mapped(m, EffectOf(m, img, slots[i]).w.target, 8))
  }

  /** The writes of the entries as the tables stand at the beginning, up to the first entry of an
    unhandled type. */
  ghost function Writes(m: Memory, img: Image, slots: seq<Slot>): seq<Write>
    requires forall i :: 0 <= i < |slots| ==> SlotReadable(m, img, slots[i])
  {
    if slots == [] then []
    else
      match EffectOf(m, img, slots[0])
      case Put(w) => [w] + Writes(m, img, slots[1..])
      case Pass => Writes(m, img, slots[1..])
      case Unhandled => []
  }

  ghost predicate AllHandled(m: Memory, img: Image, slots: seq<Slot>)
    requires forall i :: 0 <= i < |slots| ==> SlotReadable(m, img, slots[i])
  {
    forall i :: 0 <= i < |slots| ==> !EffectOf(m, img, slots[i]).Unhandled?
  }

  /** The bytes of the entry and of the symbol's value are the same in both memories. */
  ghost predicate SameSlot(m: Memory, m': Memory, img: Image, s: Slot)
    requires SlotReadable(m, img, s)
  {
    && m'.Keys == m.Keys
    && (forall a :: s.at <= a < s.at + RELA_SIZE ==> m'[a] == m[a])
    && (ReadsSymbol(s, ReadEntry(m, s.at)) ==>
          var y := SymAt(img, ReadEntry(m, s.at).sym); forall a :: y <= a < y + 8 ==> m'[a] == m[a])
  }

  lemma SameEffect(m: Memory, m': Memory, img: Image, s: Slot)
    requires SlotReadable(m, img, s) && SameSlot(m, m', img, s)
    ensures SlotReadable(m', img, s) && EffectOf(m', img, s) == EffectOf(m, img, s)
    ensures ReadEntry(m', s.at) == ReadEntry(m, s.at)
  {
    hide Load;
    LoadCongruence(m, m', s.at, s.at, 8);
    LoadCongruence(m, m', s.at + 8, s.at + 8, 8);
    LoadCongruence(m, m', s.at + 16, s.at + 16, 8);
    if ReadsSymbol(s, ReadEntry(m, s.at)) {
      var y := SymAt(img, ReadEntry(m, s.at).sym);
      LoadCongruence(m, m', y, y, 8);
    }
  }

  lemma StoreKeepsSlot(m: Memory, m': Memory, img: Image, w: Write, s: Slot)
    requires SlotReadable(m, img, s) && SameSlot(m, m', img, s) && Mapped(m', w.target, 8)
    requires Apart(w.target, 8, s.at, RELA_SIZE)
    requires ReadsSymbol(s, ReadEntry(m, s.at)) ==> Apart(w.target, 8, SymAt(img, ReadEntry(m, s.at).sym), 8)
    ensures SameSlot(m, Store64(m', w.target, w.value), img, s)
  {
    hide Load, Store;
  }

  /** The loops read tables that they are changing the memory around; with the targets off the
    tables that makes no difference. They stop with status 1 exactly at an unhandled type. */
  lemma {:induction false} RunIsApply(m: Memory, cur: Memory, img: Image, slots: seq<Slot>)
    requires Separate(m, img, slots) && cur.Keys == m.Keys
    requires forall i :: 0 <= i < |slots| ==> SameSlot(m, cur, img, slots[i])
    ensures TargetsMapped(cur, Writes(m, img, slots))
    ensures RunSlots(cur, img, slots) ==
            if AllHandled(m, img, slots) then Running(Apply(cur, Writes(m, img, slots)))
            else Exited(1, Apply(cur, Writes(m, img, slots)))
    decreases |slots|
  {
    hide Load, Store, EffectOf, SymAt;
    if slots != [] {
      var s, rest := slots[0], slots[1..];
      SameEffect(m, cur, img, s);
      assert SlotReadable(m, img, s);
      TailSeparate(m, img, slots);
      forall i | 0 <= i < |rest| ensures SameSlot(m, cur, img, rest[i]) {
        assert rest[i] == slots[i + 1];
      }
      HandledTail(m, img, slots);
      match EffectOf(m, img, s)
      case Put(w) =>
        assert Mapped(m, w.target, 8) by { assert s == slots[0]; }
        var next := Store64(cur, w.target, w.value);
        forall i | 0 <= i < |rest| ensures SameSlot(m, next, img, rest[i]) {
          assert TargetOffTables(m, img, slots[0], slots[i + 1]);
          StoreKeepsSlot(m, cur, img, w, rest[i]);
        }
        RunIsApply(m, next, img, rest);
        var ws := Writes(m, img, slots);
        assert ws[0] == w && ws[1..] == Writes(m, img, rest);
      case Pass =>
        RunIsApply(m, cur, img, rest);
      case Unhandled =>
    }
  }

  lemma TailSeparate(m: Memory, img: Image, slots: seq<Slot>)
    requires Separate(m, img, slots) && slots != []
    ensures Separate(m, img, slots[1..])
  {
    hide EffectOf, Load, SymAt;
    var rest := slots[1..];
    forall i | 0 <= i < |rest| ensures SlotReadable(m, img, rest[i]) {
      assert rest[i] == slots[i + 1];
    }
    forall i, j | 0 <= i < |rest| && 0 <= j < |rest| ensures TargetOffTables(m, img, rest[i], rest[j]) {
      assert TargetOffTables(m, img, slots[i + 1], slots[j + 1]);
    }
    forall i | 0 <= i < |rest| && EffectOf(m, img, rest[i]).Put? ensures Mapped(m, EffectOf(m, img, rest[i]).w.target, 8) {
      assert rest[i] == slots[i + 1];
    }
  }

  lemma HandledTail(m: Memory, img: Image, slots: seq<Slot>)
    requires slots != [] && forall i :: 0 <= i < |slots| ==> SlotReadable(m, img, slots[i])
    ensures forall i :: 0 <= i < |slots[1..]| ==> SlotReadable(m, img, slots[1..][i])
    ensures AllHandled(m, img, slots) <==> !EffectOf(m, img, slots[0]).Unhandled? && AllHandled(m, img, slots[1..])
  {
    hide EffectOf, Load, SymAt;
    var rest := slots[1..];
    forall i | 0 <= i < |rest| ensures SlotReadable(m, img, rest[i]) {
      assert rest[i] == slots[i + 1];
    }
    if !EffectOf(m, img, slots[0]).Unhandled? && AllHandled(m, img, rest) {
      forall i | 0 <= i < |slots| ensures !EffectOf(m, img, slots[i]).Unhandled? {
        if i > 0 {
          assert slots[i] == rest[i - 1];
        }
      }
    }
    if AllHandled(m, img, slots) {
      forall i | 0 <= i < |rest| ensures !EffectOf(m, img, rest[i]).Unhandled? {
        assert rest[i] == slots[i + 1];
      }
    }
  }
}
