/** What the relocation passes of the two loaders do to a whole image. */
module RelocRuns {
  import opened Machine
  import opened Reloc

  const DT_NULL: nat := 0
  const DT_PLTRELSZ: nat := 2
  const DT_PLTGOT: nat := 3
  const DT_SYMTAB: nat := 6
  const DT_RELA: nat := 7
  const DT_RELASZ: nat := 8
  const DT_RELAENT: nat := 9
  const DT_REL: nat := 17
  const DT_RELSZ: nat := 18
  const DT_RELENT: nat := 19
  const DT_PLTREL: nat := 20
  const DT_JMPREL: nat := 23
  const DYN_CNT: nat := 37
  const DYN_SIZE: nat := 16

  // ---------- all entries of an image ----------

  /** The decoded dynamic vector. */
  type Dyn = d: seq<U64> | |d| == 37 witness seq(37, i => 0)

  function ImageOf(base: U64, dyn: Dyn): Image {
    Image(base, Plus(base, dyn[DT_SYMTAB]))
  }

  /** The tables can be walked: entries have a size. */
  predicate Walkable(dyn: Dyn) {
    && (dyn[DT_RELA] != 0 && dyn[DT_RELASZ] > 0 ==> dyn[DT_RELAENT] > 0)
    && (dyn[DT_REL] != 0 && dyn[DT_RELSZ] > 0 ==> dyn[DT_RELENT] > 0)
  }

  function RelaSlots(base: U64, dyn: Dyn): seq<Slot>
    requires Walkable(dyn)
  {
    if dyn[DT_RELA] == 0 || dyn[DT_RELASZ] == 0 then []
    else Slots(Addr(ImageOf(base, dyn), dyn[DT_RELA]), dyn[DT_RELAENT], dyn[DT_RELASZ], false)
  }

  function PltSlots(base: U64, dyn: Dyn): seq<Slot> {
    if dyn[DT_PLTGOT] == 0 then []
    else Slots(Addr(ImageOf(base, dyn), dyn[DT_JMPREL]), RELA_SIZE, dyn[DT_PLTRELSZ], true)
  }

  function AllSlots(base: U64, dyn: Dyn): seq<Slot>
    requires Walkable(dyn)
  {
    RelaSlots(base, dyn) + PltSlots(base, dyn)
  }

  /** The JMPREL table has entries without addends, which neither loader supports. */
  predicate PltIsRel(dyn: Dyn) {
    dyn[DT_PLTGOT] != 0 && dyn[DT_PLTREL] == DT_REL
  }

  /** The passes of ld_stage1_entry, by which the loader relocates itself. */
  ghost function RelocateSelf(m: Memory, base: U64, dyn: Dyn): Outcome
    requires Walkable(dyn)
  {
    match RunSlots(m, ImageOf(base, dyn), RelaSlots(base, dyn))
    case Running(m1) =>
      if PltIsRel(dyn) then Exited(1, m1)
      else RunSlots(m1, ImageOf(base, dyn), PltSlots(base, dyn))
    case o => o
  }

  // ---------- walking a table ----------

  function Left(size: nat, offs: nat): nat {
    if offs < size then size - offs else 0
  }

  /** One step of a table: its first entry and the rest. */
  lemma SlotsStep(table: nat, ent: nat, size: nat, offs: nat, plt: bool)
    requires ent > 0 && offs < size
    ensures var s := Slots(table + offs, ent, Left(size, offs), plt);
            s != [] && s[0] == Slot(table + offs, plt)
            && s[1..] == Slots(table + (offs + ent), ent, Left(size, offs + ent), plt)
  {
    assert table + (offs + ent) == table + offs + ent;
  }

  lemma NothingToRun(m: Memory, img: Image)
    ensures RunSlots(m, img, []) == Running(m)
  {
  }

  lemma NoSlots(m: Memory, img: Image, at: nat, ent: nat, plt: bool)
    requires ent > 0
    ensures RunSlots(m, img, Slots(at, ent, 0, plt)) == Running(m)
  {
  }

  // ---------- the specification ----------

  /** The word a handled entry must leave, by section 4.4.1 of the AMD64 psABI: S for GLOB_DAT and
    JUMP_SLOT, B + A for RELATIVE, where S is the symbol's value in the image loaded at B. */
  ghost predicate MeetsAbi(m: Memory, m': Memory, img: Image, s: Slot)
    requires SlotReadable(m, img, s)
  {
    var e := ReadEntry(m, s.at);
    var target := Plus(img.base, e.offset);
    && (e.kind == (if s.plt then R_X86_64_JUMP_SLOT else R_X86_64_GLOB_DAT) ==>
          && Mapped(m', target, 8)
          && Load64(m', target) == Plus(img.base, Load64(m, SymAt(img, e.sym))))
    && (!s.plt && e.kind == R_X86_64_RELATIVE ==>
          && Mapped(m', target, 8)
          && Load64(m', target) == Plus(img.base, e.addend))
  }

  /** Address `a` is in no relocation target. */
  ghost predicate NoTarget(m: Memory, img: Image, slots: seq<Slot>, a: nat)
    requires forall i :: 0 <= i < |slots| ==> SlotReadable(m, img, slots[i])
  {
    forall i :: 0 <= i < |slots| && EffectOf(m, img, slots[i]).Put? ==>
      var t := EffectOf(m, img, slots[i]).w.target; !(t <= a < t + 8)
  }

  /** `m'` is the relocated `m`: every target holds its word and every other byte is unchanged. */
  ghost predicate Relocated(m: Memory, m': Memory, img: Image, slots: seq<Slot>)
    requires forall i :: 0 <= i < |slots| ==> SlotReadable(m, img, slots[i])
  {
    && m'.Keys == m.Keys
    && (forall i :: 0 <= i < |slots| ==> MeetsAbi(m, m', img, slots[i]))
    && (forall a :: a in m && NoTarget(m, img, slots, a) ==> m'[a] == m[a])
  }

  ghost predicate DistinctTargets(m: Memory, img: Image, slots: seq<Slot>)
    requires forall i :: 0 <= i < |slots| ==> SlotReadable(m, img, slots[i])
  {
    forall i, j :: 0 <= i < j < |slots| && EffectOf(m, img, slots[i]).Put? && EffectOf(m, img, slots[j]).Put? ==>
      Apart(EffectOf(m, img, slots[i]).w.target, 8, EffectOf(m, img, slots[j]).w.target, 8)
  }

  // ---------- from slots to writes ----------

  lemma TailReadable(m: Memory, img: Image, slots: seq<Slot>)
    requires slots != [] && forall i :: 0 <= i < |slots| ==> SlotReadable(m, img, slots[i])
    ensures forall i :: 0 <= i < |slots[1..]| ==> SlotReadable(m, img, slots[1..][i]) && slots[1..][i] == slots[i + 1]
  {
  }

  /** Every handled entry contributes its write. */
  lemma {:induction false} SlotInWrites(m: Memory, img: Image, slots: seq<Slot>, k: nat)
    requires forall i :: 0 <= i < |slots| ==> SlotReadable(m, img, slots[i])
    requires AllHandled(m, img, slots) && k < |slots| && EffectOf(m, img, slots[k]).Put?
    ensures EffectOf(m, img, slots[k]).w in Writes(m, img, slots)
    decreases |slots|
  {
    hide EffectOf, Load, SymAt, SlotReadable;
    TailReadable(m, img, slots);
    HandledTail(m, img, slots);
    if k > 0 {
      SlotInWrites(m, img, slots[1..], k - 1);
    }
  }

  /** Every write comes from an entry. */
  lemma {:induction false} WriteHasSlot(m: Memory, img: Image, slots: seq<Slot>, j: nat) returns (k: nat)
    requires forall i :: 0 <= i < |slots| ==> SlotReadable(m, img, slots[i])
    requires j < |Writes(m, img, slots)|
    ensures k < |slots| && EffectOf(m, img, slots[k]) == Put(Writes(m, img, slots)[j]) && k >= j
    decreases |slots|
  {
    hide EffectOf, Load, SymAt, SlotReadable;
    TailReadable(m, img, slots);
    match EffectOf(m, img, slots[0])
    case Put(w) =>
      if j == 0 {
        k := 0;
      } else {
        k := WriteHasSlot(m, img, slots[1..], j - 1);
        k := k + 1;
      }
    case Pass =>
      k := WriteHasSlot(m, img, slots[1..], j);
      k := k + 1;
  }

  lemma {:induction false} WritesApart(m: Memory, img: Image, slots: seq<Slot>)
    requires forall i :: 0 <= i < |slots| ==> SlotReadable(m, img, slots[i])
    requires DistinctTargets(m, img, slots)
    ensures TargetsApart(Writes(m, img, slots))
    decreases |slots|
  {
    hide EffectOf, Load, SymAt, SlotReadable;
    if slots != [] {
      TailReadable(m, img, slots);
      assert DistinctTargets(m, img, slots[1..]);
      WritesApart(m, img, slots[1..]);
      var ws := Writes(m, img, slots);
      if EffectOf(m, img, slots[0]).Put? {
        forall i, j | 0 <= i < j < |ws| ensures Apart(ws[i].target, 8, ws[j].target, 8) {
          var k := WriteHasSlot(m, img, slots[1..], j - 1);
          if i > 0 {
            assert Apart(ws[1..][i - 1].target, 8, ws[1..][j - 1].target, 8);
          } else {
            assert slots[1..][k] == slots[k + 1];
          }
        }
      }
    }
  }

  lemma AbiOfPut(m: Memory, m': Memory, img: Image, s: Slot)
    requires SlotReadable(m, img, s) && !EffectOf(m, img, s).Unhandled?
    requires EffectOf(m, img, s).Put? ==>
               var w := EffectOf(m, img, s).w; Mapped(m', w.target, 8) && Load64(m', w.target) == w.value
    ensures MeetsAbi(m, m', img, s)
  {
    hide Load;
  }

  lemma PutOfAbi(m: Memory, m': Memory, img: Image, s: Slot)
    requires SlotReadable(m, img, s) && MeetsAbi(m, m', img, s) && EffectOf(m, img, s).Put?
    ensures var w := EffectOf(m, img, s).w; Mapped(m', w.target, 8) && Load64(m', w.target) == w.value
  {
    hide Load;
  }

  lemma WrittenIsRelocated(m: Memory, m': Memory, img: Image, slots: seq<Slot>)
    requires (forall i :: 0 <= i < |slots| ==> SlotReadable(m, img, slots[i])) && AllHandled(m, img, slots)
    requires Written(m, m', Writes(m, img, slots))
    ensures Relocated(m, m', img, slots)
  {
    hide EffectOf, Load, SymAt, MeetsAbi, Load64, SlotReadable;
    var ws := Writes(m, img, slots);
    forall i | 0 <= i < |slots| ensures MeetsAbi(m, m', img, slots[i]) {
      if EffectOf(m, img, slots[i]).Put? {
        SlotInWrites(m, img, slots, i);
        var j :| 0 <= j < |ws| && ws[j] == EffectOf(m, img, slots[i]).w;
      }
      AbiOfPut(m, m', img, slots[i]);
    }
    forall a | a in m && NoTarget(m, img, slots, a) ensures m'[a] == m[a] {
      forall j | 0 <= j < |ws| ensures !(ws[j].target <= a < ws[j].target + 8) {
        var k := WriteHasSlot(m, img, slots, j);
      }
      assert Untouched(a, ws);
    }
  }

  // ---------- main theorems ----------

  /** The loops, on tables of any length whose targets overlap neither each other nor the tables and
    whose types are all handled, end with exactly the relocated image. */
  lemma RunRelocates(m: Memory, img: Image, slots: seq<Slot>)
    requires Separate(m, img, slots) && AllHandled(m, img, slots) && DistinctTargets(m, img, slots)
    ensures RunSlots(m, img, slots).Running? && Relocated(m, RunSlots(m, img, slots).mem, img, slots)
  {
    hide EffectOf, Load, SymAt;
    forall i | 0 <= i < |slots| ensures SameSlot(m, m, img, slots[i]) {
    }
    RunIsApply(m, m, img, slots);
    WritesApart(m, img, slots);
    ApplyWritten(m, Writes(m, img, slots));
    WrittenIsRelocated(m, Apply(m, Writes(m, img, slots)), img, slots);
  }

  /** An entry of an unhandled type makes the loader exit with status 1, and nothing else does. */
  lemma ExitIffUnhandled(m: Memory, img: Image, slots: seq<Slot>)
    requires Separate(m, img, slots)
    ensures !RunSlots(m, img, slots).Fault?
    ensures RunSlots(m, img, slots).Exited? <==> exists i :: 0 <= i < |slots| && EffectOf(m, img, slots[i]).Unhandled?
  {
    hide EffectOf, Load, SymAt;
    forall i | 0 <= i < |slots| ensures SameSlot(m, m, img, slots[i]) {
    }
    RunIsApply(m, m, img, slots);
  }

  /** The relocated image is unique. */
  lemma RelocatedUnique(m: Memory, m1: Memory, m2: Memory, img: Image, slots: seq<Slot>)
    requires forall i :: 0 <= i < |slots| ==> SlotReadable(m, img, slots[i])
    requires Relocated(m, m1, img, slots) && Relocated(m, m2, img, slots)
    ensures m1 == m2
  {
    hide EffectOf, Load, SymAt, MeetsAbi, SlotReadable;
    forall a | a in m ensures m1[a] == m2[a] {
      if !NoTarget(m, img, slots, a) {
        var i :| 0 <= i < |slots| && EffectOf(m, img, slots[i]).Put?
                 && EffectOf(m, img, slots[i]).w.target <= a < EffectOf(m, img, slots[i]).w.target + 8;
        PutOfAbi(m, m1, img, slots[i]);
        PutOfAbi(m, m2, img, slots[i]);
        var t := EffectOf(m, img, slots[i]).w.target;
        LoadInjective(m1, m2, t, t, 8, a - t);
      }
    }
  }

  /** The order in which the entries are processed does not matter. */
  lemma OrderDoesNotMatter(m: Memory, img: Image, slots: seq<Slot>, slots': seq<Slot>)
    requires Separate(m, img, slots) && AllHandled(m, img, slots) && DistinctTargets(m, img, slots)
    requires multiset(slots') == multiset(slots)
    ensures RunSlots(m, img, slots') == RunSlots(m, img, slots)
  {
    hide EffectOf, Load, SymAt, MeetsAbi, SlotReadable;
    PermutedFits(m, img, slots, slots');
    PermutedDistinct(m, img, slots, slots');
    RunRelocates(m, img, slots);
    RunRelocates(m, img, slots');
    var m', m'' := RunSlots(m, img, slots).mem, RunSlots(m, img, slots').mem;
    SameMembers(slots, slots');
    forall i | 0 <= i < |slots| ensures MeetsAbi(m, m'', img, slots[i]) {
      var j :| 0 <= j < |slots'| && slots'[j] == slots[i];
    }
    forall a | a in m && NoTarget(m, img, slots, a) ensures m''[a] == m[a] {
      forall j | 0 <= j < |slots'| && EffectOf(m, img, slots'[j]).Put?
        ensures var t := EffectOf(m, img, slots'[j]).w.target; !(t <= a < t + 8)
      {
        var i :| 0 <= i < |slots| && slots[i] == slots'[j];
      }
    }
    RelocatedUnique(m, m', m'', img, slots);
  }

  lemma SameMembers(a: seq<Slot>, b: seq<Slot>)
    requires multiset(a) == multiset(b)
    ensures forall i :: 0 <= i < |a| ==> a[i] in b
    ensures forall i :: 0 <= i < |b| ==> b[i] in a
  {
    forall i | 0 <= i < |a| ensures a[i] in b { assert a[i] in multiset(a); }
    forall i | 0 <= i < |b| ensures b[i] in a { assert b[i] in multiset(b); }
  }

  lemma AppearsTwice(s: seq<Slot>, i: nat, j: nat)
    requires i < j < |s| && s[i] == s[j]
    ensures multiset(s)[s[i]] >= 2
  {
    assert s == s[..j] + [s[j]] + s[j + 1..];
    assert s[..j][i] == s[j] && s[j] in multiset(s[..j]);
  }

  lemma TwoPlaces(s: seq<Slot>, x: Slot) returns (i: nat, j: nat)
    requires multiset(s)[x] >= 2
    ensures i < j < |s| && s[i] == s[j] == x
  {
    assert x in s;
    var k :| 0 <= k < |s| && s[k] == x;
    var before, after := s[..k], s[k + 1..];
    assert s == before + [x] + after;
    if x in before {
      i, j :| 0 <= i < |before| && before[i] == x && j == k;
    } else {
      assert x !in multiset(before);
      assert x in after;
      var l :| 0 <= l < |after| && after[l] == x;
      i, j := k, k + 1 + l;
    }
  }

  lemma PermutedDistinct(m: Memory, img: Image, slots: seq<Slot>, slots': seq<Slot>)
    requires Separate(m, img, slots) && DistinctTargets(m, img, slots) && multiset(slots') == multiset(slots)
    requires forall i :: 0 <= i < |slots'| ==> SlotReadable(m, img, slots'[i])
    ensures DistinctTargets(m, img, slots')
  {
    hide EffectOf, Load, SymAt, SlotReadable;
    SameMembers(slots, slots');
    forall i, j | 0 <= i < j < |slots'| && EffectOf(m, img, slots'[i]).Put? && EffectOf(m, img, slots'[j]).Put?
      ensures Apart(EffectOf(m, img, slots'[i]).w.target, 8, EffectOf(m, img, slots'[j]).w.target, 8)
    {
      var x, y := slots'[i], slots'[j];
      if x == y {
        AppearsTwice(slots', i, j);
        var k, l := TwoPlaces(slots, x);
      } else {
        var k :| 0 <= k < |slots| && slots[k] == x;
        var l :| 0 <= l < |slots| && slots[l] == y;
      }
    }
  }

  lemma PermutedFits(m: Memory, img: Image, slots: seq<Slot>, slots': seq<Slot>)
    requires Separate(m, img, slots) && AllHandled(m, img, slots) && multiset(slots') == multiset(slots)
    ensures Separate(m, img, slots') && AllHandled(m, img, slots')
  {
    hide EffectOf, Load, SymAt, SlotReadable;
    SameMembers(slots, slots');
    forall i, j | 0 <= i < |slots'| && 0 <= j < |slots'| ensures TargetOffTables(m, img, slots'[i], slots'[j]) {
      var k :| 0 <= k < |slots| && slots[k] == slots'[i];
      var l :| 0 <= l < |slots| && slots[l] == slots'[j];
      assert TargetOffTables(m, img, slots[k], slots[l]);
    }
  }

  /** The tables lie where no target does, so relocating leaves them as they were. */
  lemma TablesSurvive(m: Memory, m': Memory, img: Image, slots: seq<Slot>, k: nat)
    requires Separate(m, img, slots) && Relocated(m, m', img, slots) && k < |slots|
    ensures SameSlot(m, m', img, slots[k])
  {
    hide EffectOf, Load, SymAt, MeetsAbi;
    var s := slots[k];
    var y := SymAt(img, ReadEntry(m, s.at).sym);
    assert SlotReadable(m, img, s);
    forall a | s.at <= a < s.at + RELA_SIZE || (ReadsSymbol(s, ReadEntry(m, s.at)) && y <= a < y + 8)
      ensures m'[a] == m[a]
    {
      forall i | 0 <= i < |slots| && EffectOf(m, img, slots[i]).Put?
        ensures var t := EffectOf(m, img, slots[i]).w.target; !(t <= a < t + 8)
      {
        assert TargetOffTables(m, img, slots[i], slots[k]);
      }
      assert NoTarget(m, img, slots, a);
    }
  }

  /** Running the passes a second time changes nothing. */
  lemma SecondRunChangesNothing(m: Memory, img: Image, slots: seq<Slot>)
    requires Separate(m, img, slots) && AllHandled(m, img, slots) && DistinctTargets(m, img, slots)
    ensures var o := RunSlots(m, img, slots);
            o.Running? && RunSlots(o.mem, img, slots) == o
  {
    hide EffectOf, Load, SymAt, MeetsAbi, Load64;
    RunRelocates(m, img, slots);
    var m' := RunSlots(m, img, slots).mem;
    forall k | 0 <= k < |slots| ensures SameSlot(m, m', img, slots[k]) {
      TablesSurvive(m, m', img, slots, k);
    }
    RunIsApply(m, m', img, slots);
    var ws := Writes(m, img, slots);
    WritesApart(m, img, slots);
    ApplyWritten(m', ws);
    forall j | 0 <= j < |ws| ensures Mapped(m', ws[j].target, 8) && Load64(m', ws[j].target) == ws[j].value {
      var k := WriteHasSlot(m, img, slots, j);
      PutOfAbi(m, m', img, slots[k]);
    }
    WrittenUnique(m', Apply(m', ws), m', ws);
  }
}
