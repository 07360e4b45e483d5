/** _rt_thread_create and the list of thread control blocks, os/linux/tinyrt-threads.c. */
module ThreadCreate {
  import opened Machine
  import opened Tcb
  import Threads

  const THREAD_ID: nat := 0x00
  const STATE_FINISH: nat := 0x04
  const STATE_DETACH: nat := 0x08
  const EXIT_CODE: nat := 0x0c
  const STACK_CANARY: nat := 0x28
  const NEXT_TCB: nat := 0x30
  const PREV_TCB: nat := 0x38
  const IS_CANCELLED: nat := 0x40

  const CANARY: U64 := 0x1234_5678_dead_beef
  const NULL: nat := 0

  /** The fields of a thread control block. */
  datatype Block = Block(
    thread_id: U32, state_finish: U32, state_detach: U32, exit_code: U32,
    stack_canary: U64, next_tcb: U64, prev_tcb: U64, is_cancelled: U32)

  function ReadBlock(m: Memory, t: nat): Block
    requires Mapped(m, t, TCB_SIZE)
  {
    Block(Load32(m, t + THREAD_ID), Load32(m, t + STATE_FINISH), Load32(m, t + STATE_DETACH), Load32(m, t + EXIT_CODE),
          Load64(m, t + STACK_CANARY), Load64(m, t + NEXT_TCB), Load64(m, t + PREV_TCB), Load32(m, t + IS_CANCELLED))
  }

  lemma FieldFrame(m: Memory, m': Memory, a: nat, n: nat, w: nat, k: nat)
    requires SameOutside(m, m', a, n) && Mapped(m, w, k)
    ensures Mapped(m', w, k)
    ensures Apart(a, n, w, k) ==> Load(m', w, k) == Load(m, w, k)
  {
    hide Load;
    if Apart(a, n, w, k) {
      LoadFrame(m, m', a, n, w, k);
    } else {
      forall i | w <= i < w + k ensures i in m' { assert i in m; }
    }
  }

  /** Only the fields that a store overlaps change. */
  lemma FieldsFrame(m: Memory, m': Memory, t: nat, a: nat, n: nat)
    requires SameOutside(m, m', a, n) && Mapped(m, t, TCB_SIZE)
    ensures Mapped(m', t, TCB_SIZE)
    ensures var b, b' := ReadBlock(m, t), ReadBlock(m', t);
            && (Apart(a, n, t + THREAD_ID, 4) ==> b'.thread_id == b.thread_id)
            && (Apart(a, n, t + STATE_FINISH, 4) ==> b'.state_finish == b.state_finish)
            && (Apart(a, n, t + STATE_DETACH, 4) ==> b'.state_detach == b.state_detach)
            && (Apart(a, n, t + EXIT_CODE, 4) ==> b'.exit_code == b.exit_code)
            && (Apart(a, n, t + STACK_CANARY, 8) ==> b'.stack_canary == b.stack_canary)
            && (Apart(a, n, t + NEXT_TCB, 8) ==> b'.next_tcb == b.next_tcb)
            && (Apart(a, n, t + PREV_TCB, 8) ==> b'.prev_tcb == b.prev_tcb)
            && (Apart(a, n, t + IS_CANCELLED, 4) ==> b'.is_cancelled == b.is_cancelled)
  {
    hide Load;
    forall i | t <= i < t + TCB_SIZE ensures i in m' { assert i in m; }
    hide SameOutside;
    FieldFrame(m, m', a, n, t + THREAD_ID, 4);
    FieldFrame(m, m', a, n, t + STATE_FINISH, 4);
    FieldFrame(m, m', a, n, t + STATE_DETACH, 4);
    FieldFrame(m, m', a, n, t + EXIT_CODE, 4);
    FieldFrame(m, m', a, n, t + STACK_CANARY, 8);
    FieldFrame(m, m', a, n, t + NEXT_TCB, 8);
    FieldFrame(m, m', a, n, t + PREV_TCB, 8);
    FieldFrame(m, m', a, n, t + IS_CANCELLED, 4);
    hide Mapped;
  }

  lemma BlockFrame(m: Memory, m': Memory, t: nat, a: nat, n: nat)
    requires SameOutside(m, m', a, n) && Mapped(m, t, TCB_SIZE) && Apart(a, n, t, TCB_SIZE)
    ensures Mapped(m', t, TCB_SIZE) && ReadBlock(m', t) == ReadBlock(m, t)
  {
    FieldsFrame(m, m', t, a, n);
    hide ReadBlock, SameOutside, Mapped;
  }

  /** A block is determined by its bytes. */
  lemma SameBlock(m: Memory, m': Memory, t: nat)
    requires Mapped(m, t, TCB_SIZE) && Mapped(m', t, TCB_SIZE)
    requires forall i :: t <= i < t + TCB_SIZE ==> m'[i] == m[i]
    ensures ReadBlock(m', t) == ReadBlock(m, t)
  {
    hide Load;
    LoadCongruence(m, m', t + THREAD_ID, t + THREAD_ID, 4);
    LoadCongruence(m, m', t + STATE_FINISH, t + STATE_FINISH, 4);
    LoadCongruence(m, m', t + STATE_DETACH, t + STATE_DETACH, 4);
    LoadCongruence(m, m', t + EXIT_CODE, t + EXIT_CODE, 4);
    LoadCongruence(m, m', t + STACK_CANARY, t + STACK_CANARY, 8);
    LoadCongruence(m, m', t + NEXT_TCB, t + NEXT_TCB, 8);
    LoadCongruence(m, m', t + PREV_TCB, t + PREV_TCB, 8);
    LoadCongruence(m, m', t + IS_CANCELLED, t + IS_CANCELLED, 4);
    hide Mapped;
  }

  lemma SetNext(m: Memory, t: nat, v: U64)
    requires Mapped(m, t, TCB_SIZE)
    ensures var m' := Store64(m, t + NEXT_TCB, v);
            Mapped(m', t, TCB_SIZE) && ReadBlock(m', t) == ReadBlock(m, t).(next_tcb := v)
  {
    var m' := Store64(m, t + NEXT_TCB, v);
    FieldsFrame(m, m', t, t + NEXT_TCB, 8);
    hide Load, Store, Mapped, SameOutside;
  }

  lemma SetPrev(m: Memory, t: nat, v: U64)
    requires Mapped(m, t, TCB_SIZE)
    ensures var m' := Store64(m, t + PREV_TCB, v);
            Mapped(m', t, TCB_SIZE) && ReadBlock(m', t) == ReadBlock(m, t).(prev_tcb := v)
  {
    var m' := Store64(m, t + PREV_TCB, v);
    FieldsFrame(m, m', t, t + PREV_TCB, 8);
    hide Load, Store, Mapped, SameOutside;
  }

  lemma SetCanary(m: Memory, t: nat, v: U64)
    requires Mapped(m, t, TCB_SIZE)
    ensures var m' := Store64(m, t + STACK_CANARY, v);
            Mapped(m', t, TCB_SIZE) && ReadBlock(m', t) == ReadBlock(m, t).(stack_canary := v)
  {
    var m' := Store64(m, t + STACK_CANARY, v);
    FieldsFrame(m, m', t, t + STACK_CANARY, 8);
    hide Load, Store, Mapped, SameOutside;
  }

  lemma SetCancelled(m: Memory, t: nat, v: U32)
    requires Mapped(m, t, TCB_SIZE)
    ensures var m' := Store32(m, t + IS_CANCELLED, v);
            Mapped(m', t, TCB_SIZE) && ReadBlock(m', t) == ReadBlock(m, t).(is_cancelled := v)
  {
    var m' := Store32(m, t + IS_CANCELLED, v);
    FieldsFrame(m, m', t, t + IS_CANCELLED, 4);
    hide Load, Store, Mapped, SameOutside;
  }

  lemma SetFinish(m: Memory, t: nat, v: U32)
    requires Mapped(m, t, TCB_SIZE)
    ensures var m' := Store32(m, t + STATE_FINISH, v);
            Mapped(m', t, TCB_SIZE) && ReadBlock(m', t) == ReadBlock(m, t).(state_finish := v)
  {
    var m' := Store32(m, t + STATE_FINISH, v);
    FieldsFrame(m, m', t, t + STATE_FINISH, 4);
    hide Load, Store, Mapped, SameOutside;
  }

  lemma SetThreadId(m: Memory, t: nat, v: U32)
    requires Mapped(m, t, TCB_SIZE)
    ensures var m' := Store32(m, t + THREAD_ID, v);
            Mapped(m', t, TCB_SIZE) && ReadBlock(m', t) == ReadBlock(m, t).(thread_id := v)
  {
    var m' := Store32(m, t + THREAD_ID, v);
    FieldsFrame(m, m', t, t + THREAD_ID, 4);
    hide Load, Store, Mapped, SameOutside;
  }

  lemma ZeroBlock(m: Memory, t: nat)
    requires Mapped(m, t, TCB_SIZE) && forall i :: t <= i < t + TCB_SIZE ==> m[i] == 0
    ensures ReadBlock(m, t) == Block(0, 0, 0, 0, 0, 0, 0, 0)
  {
    hide Load;
    LoadZero(m, t + THREAD_ID, 4);
    LoadZero(m, t + STATE_FINISH, 4);
    LoadZero(m, t + STATE_DETACH, 4);
    LoadZero(m, t + EXIT_CODE, 4);
    LoadZero(m, t + STACK_CANARY, 8);
    LoadZero(m, t + NEXT_TCB, 8);
    LoadZero(m, t + PREV_TCB, 8);
    LoadZero(m, t + IS_CANCELLED, 4);
    hide Mapped;
  }

  // ---------- the list ----------

  ghost predicate BlocksMapped(m: Memory, blocks: seq<nat>) {
    && (forall i :: 0 <= i < |blocks| ==> NULL < blocks[i] < TWO_TO_THE_64 && Mapped(m, blocks[i], TCB_SIZE))
    && (forall i, j :: 0 <= i < j < |blocks| ==> Apart(blocks[i], TCB_SIZE, blocks[j], TCB_SIZE))
  }

  function After(blocks: seq<nat>, i: nat): nat {
    if i + 1 < |blocks| then blocks[i + 1] else NULL
  }

  function Before(blocks: seq<nat>, i: nat): nat {
    if 0 < i <= |blocks| then blocks[i - 1] else NULL
  }

  /** The blocks, oldest first, are linked in both directions. */
  ghost predicate Linked(m: Memory, blocks: seq<nat>)
    requires BlocksMapped(m, blocks)
  {
    forall i :: 0 <= i < |blocks| ==>
      && ReadBlock(m, blocks[i]).next_tcb == After(blocks, i)
      && ReadBlock(m, blocks[i]).prev_tcb == Before(blocks, i)
  }

  /** What linking a new block in does to the list. */
  lemma LinkIn(m: Memory, m': Memory, blocks: seq<nat>, t: U64)
    requires BlocksMapped(m, blocks) && Linked(m, blocks)
    requires BlocksMapped(m', blocks) && BlocksMapped(m', blocks + [t]) && Mapped(m', t, TCB_SIZE)
    requires ReadBlock(m', t).next_tcb == NULL
    requires ReadBlock(m', t).prev_tcb == if blocks == [] then NULL else blocks[|blocks| - 1]
    requires forall i :: 0 <= i < |blocks| - 1 ==> ReadBlock(m', blocks[i]) == ReadBlock(m, blocks[i])
    requires blocks != [] ==>
               var h := blocks[|blocks| - 1]; ReadBlock(m', h) == ReadBlock(m, h).(next_tcb := t)
    ensures Linked(m', blocks + [t])
  {
    hide ReadBlock;
    var longer := blocks + [t];
    forall i | 0 <= i < |longer|
      ensures ReadBlock(m', longer[i]).next_tcb == After(longer, i)
      ensures ReadBlock(m', longer[i]).prev_tcb == Before(longer, i)
    {
      if i < |blocks| {
        assert longer[i] == blocks[i];
        assert ReadBlock(m', blocks[i]).prev_tcb == ReadBlock(m, blocks[i]).prev_tcb;
      }
    }
  }

  ghost predicate SameByte(m: Memory, m': Memory, dst: nat, src: nat, i: nat) {
    dst + i in m' && src + i in m && m'[dst + i] == m[src + i]
  }

  ghost predicate BytesFrom(m: Memory, m': Memory, dst: nat, src: nat, n: nat) {
    forall i :: 0 <= i < n ==> SameByte(m, m', dst, src, i)
  }

  /** The bytes from `dst` are those from `src`, and nothing else changed. */
  ghost predicate Copied(m: Memory, m': Memory, dst: nat, src: nat, n: nat) {
    SameOutside(m, m', dst, n) && BytesFrom(m, m', dst, src, n)
  }

  lemma CopyNext(m: Memory, m': Memory, dst: nat, src: nat, i: nat, n: nat)
    requires Mapped(m, dst, n) && Mapped(m, src, n) && Apart(dst, n, src, n) && i < n
    requires Copied(m, m', dst, src, i)
    ensures dst + i in m' && src + i in m'
    ensures Copied(m, m'[dst + i := m'[src + i]], dst, src, i + 1)
  {
    assert dst + i in m && src + i in m;
    var m'' := m'[dst + i := m'[src + i]];
    forall k | 0 <= k < i + 1 ensures SameByte(m, m'', dst, src, k) {
      if k < i {
        assert SameByte(m, m', dst, src, k);
      }
    }
  }

  /** The id that a clone with this result has stored: none if it failed. */
  function ClonedId(ret: int): U32
    requires ret < 0x8000_0000
  {
    if ret > 0 then ret else 0
  }

  class Runtime {
    var mem: Memory
    var thread_blocks_head: U64
    const cia_stack_bits: nat
    const cia_tls_image_base: nat
    const cia_tls_image_size: nat
    /** The blocks that were linked, oldest first. */
    ghost var blocks: seq<nat>

    ghost predicate Valid()
      reads this
    {
      && 13 <= cia_stack_bits < 63 && cia_tls_image_size <= Pow2(cia_stack_bits)
      && Mapped(mem, cia_tls_image_base, cia_tls_image_size)
      && thread_blocks_head == (if blocks == [] then NULL else blocks[|blocks| - 1])
      && BlocksMapped(mem, blocks) && Linked(mem, blocks)
    }

    /** The runtime before any thread was created. */
    constructor (m: Memory, bits: nat, image_base: nat, image_size: nat)
      requires 13 <= bits < 63 && image_size <= Pow2(bits) && Mapped(m, image_base, image_size)
      ensures Valid() && blocks == [] && mem == m
      ensures cia_stack_bits == bits && cia_tls_image_base == image_base && cia_tls_image_size == image_size
    {
      mem, thread_blocks_head, blocks := m, NULL, [];
      cia_stack_bits, cia_tls_image_base, cia_tls_image_size := bits, image_base, image_size;
    }

    /** The loop that copies the TLS image. */
    method CopyTls(tls_base: nat)
      requires Mapped(mem, tls_base, cia_tls_image_size) && Mapped(mem, cia_tls_image_base, cia_tls_image_size)
      requires Apart(tls_base, cia_tls_image_size, cia_tls_image_base, cia_tls_image_size)
      modifies this`mem
      ensures Copied(old(mem), mem, tls_base, cia_tls_image_base, cia_tls_image_size)
    {
      var i := 0;
      while i < cia_tls_image_size
        invariant 0 <= i <= cia_tls_image_size
        invariant Copied(old(mem), mem, tls_base, cia_tls_image_base, i)
      {
        CopyNext(old(mem), mem, tls_base, cia_tls_image_base, i, cia_tls_image_size);
        mem := mem[tls_base + i := mem[cia_tls_image_base + i]];
        i := i + 1;
      }
    }

    /** The fields of the new block before it is linked in. */
    method InitBlock(t: U64)
      requires Mapped(mem, t, TCB_SIZE) && ReadBlock(mem, t) == Block(0, 0, 0, 0, 0, 0, 0, 0)
      modifies this`mem
      ensures SameOutside(old(mem), mem, t, TCB_SIZE) && Mapped(mem, t, TCB_SIZE)
      ensures ReadBlock(mem, t) == Block(0, 0, 0, 0, CANARY, NULL, thread_blocks_head, 0)
    {
      hide ReadBlock, Load64, Load32, Load, Store;
      SetCanary(mem, t, CANARY);
      mem := Store64(mem, t + STACK_CANARY, CANARY);
      SetNext(mem, t, NULL);
      mem := Store64(mem, t + NEXT_TCB, NULL);
      SetPrev(mem, t, thread_blocks_head);
      mem := Store64(mem, t + PREV_TCB, thread_blocks_head);
      SetCancelled(mem, t, 0);
      mem := Store32(mem, t + IS_CANCELLED, 0);
    }

    /** _rt_thread_start (arch/sysv_x86-64/thread-entry.asm) leaves three words on top of the new
      stack, from which the thread takes its function and that one's argument. */
    method StartFrame(stack: nat, thread_fn: U64, ctx: U64, return_address: U64)
      requires stack >= FRAME_SIZE && Mapped(mem, stack - FRAME_SIZE, FRAME_SIZE)
      modifies this`mem
      ensures SameOutside(old(mem), mem, stack - 24, 24)
      ensures Mapped(mem, stack - FRAME_SIZE, FRAME_SIZE)
      ensures Load64(mem, stack - 24) == thread_fn && Load64(mem, stack - 16) == ctx
      ensures Load64(mem, stack - 8) == return_address
    {
      hide Load, Store;
      mem := Store64(mem, stack - 8, return_address);
      ghost var m1 := mem;
      mem := Store64(mem, stack - 16, ctx);
      LoadFrame(m1, mem, stack - 16, 8, stack - 8, 8);
      ghost var m2 := mem;
      mem := Store64(mem, stack - 24, thread_fn);
      LoadFrame(m2, mem, stack - 24, 8, stack - 8, 8);
      LoadFrame(m2, mem, stack - 24, 8, stack - 16, 8);
    }

    /** Links a new block behind the newest one. */
    method LinkHead(t: U64)
      requires Valid() && NULL < t && BlocksMapped(mem, blocks + [t]) && Mapped(mem, t, TCB_SIZE)
      requires ReadBlock(mem, t).next_tcb == NULL && ReadBlock(mem, t).prev_tcb == thread_blocks_head
      modifies this`mem, this`thread_blocks_head, this`blocks
      ensures Valid() && blocks == old(blocks) + [t]
      ensures old(thread_blocks_head) == NULL ==> mem == old(mem)
      ensures mem == LinkedMemory(old(mem), old(blocks), t)
      ensures Mapped(mem, t, TCB_SIZE) && ReadBlock(mem, t) == ReadBlock(old(mem), t)
    {
      hide ReadBlock, Load, Store, Load64, Pow2, Linked, BlocksMapped, Mapped, SameOutside;
      ListHead(mem, blocks);
      LinkResult(mem, blocks, t);
      if thread_blocks_head != NULL {
        KeysKeepMapped(mem, thread_blocks_head + NEXT_TCB, t, cia_tls_image_base, cia_tls_image_size);
        mem := Store64(mem, thread_blocks_head + NEXT_TCB, t);
      }
      thread_blocks_head := t;
      blocks := blocks + [t];
    }

    /** The part of _rt_thread_create that fills the new mapping before the block is linked in. */
    method PrepareBlock(stack_base: U64, tcb: U64)
      requires Valid() && IsMapping(stack_base, cia_stack_bits) && tcb == TcbOf(stack_base, cia_stack_bits)
      requires Unmapped(mem, stack_base, 2 * Pow2(cia_stack_bits))
      modifies this`mem
      ensures Extends(old(mem), mem)
      ensures Mapped(mem, stack_base, 2 * Pow2(cia_stack_bits)) && Mapped(mem, tcb, TCB_SIZE)
      ensures ReadBlock(mem, tcb) == Block(0, 0, 0, 0, CANARY, NULL, thread_blocks_head, 0)
      ensures TlsIs(old(mem), mem, tcb, cia_tls_image_base, cia_tls_image_size)
    {
      hide ReadBlock, Pow2, Linked, BlocksMapped, TcbOf, IsMapping, Load, Store;
      PartsDisjoint(stack_base, cia_stack_bits, cia_tls_image_size);
      var size := Pow2(cia_stack_bits);
      ghost var m0 := mem;
      mem := MapZeroPages(mem, stack_base, 2 * size);
      ghost var m1 := mem;
      NewRegionApart(m0, stack_base, 2 * size, tcb - cia_tls_image_size, cia_tls_image_base, cia_tls_image_size);
      CopyTls(tcb - cia_tls_image_size);
      ghost var m2 := mem;
      ZeroBlock(m2, tcb);
      hide Mapped, Copied, SameOutside, Extends, TlsIs, Unmapped;
      CopyExtends(m0, m1, m2, stack_base, 2 * size, tcb, cia_tls_image_base, cia_tls_image_size);
      InitBlock(tcb);
      KeepsOld(m0, m2, mem, stack_base, 2 * size, tcb, TCB_SIZE);
      TlsFrame(m0, m2, mem, tcb, cia_tls_image_base, cia_tls_image_size, tcb, TCB_SIZE);
    }

    /** _rt_thread_create, given what mmap and clone return, with the memory as it is before the new
      thread's first step. A failing mmap changes nothing. A failing clone leaves the block linked; a
      successful one stores the thread's id in the block, by CLONE_PARENT_SETTID. */
    method RtThreadCreate(stack_base: U64, ret: int, thread_fn: U64, ctx: U64, return_address: U64)
        returns (ok: bool, handle: U64)
      requires Valid() && ret < 0x8000_0000
      requires stack_base < 0x8000_0000_0000_0000 ==>
                 IsMapping(stack_base, cia_stack_bits) && Unmapped(mem, stack_base, 2 * Pow2(cia_stack_bits))
      modifies this
      ensures Valid()
      ensures stack_base >= 0x8000_0000_0000_0000 ==>
                !ok && mem == old(mem) && blocks == old(blocks)
      ensures stack_base < 0x8000_0000_0000_0000 ==>
                && ok == (ret >= 0) && handle == TcbOf(stack_base, cia_stack_bits)
                && blocks == old(blocks) + [handle] && BlocksMapped(old(mem), old(blocks))
                && Extends(LinkedMemory(old(mem), old(blocks), handle), mem)
                && StartsWith(old(mem), mem, stack_base, handle, ClonedId(ret), old(thread_blocks_head), thread_fn, ctx,
                              return_address)
    {
      hide StartsWith, Extends, LinkedMemory, Linked, BlocksMapped, Pow2, Mapped, TcbOf, IsMapping, Unmapped;
      if stack_base >= 0x8000_0000_0000_0000 {
        return false, NULL;
      }
      handle := PlaceThread(stack_base, ret, thread_fn, ctx, return_address);
      ok := ret >= 0;
    }

    /** What a new thread finds in its mapping: its block, the TLS image and the start frame. */
    ghost predicate StartsWith(m0: Memory, m: Memory, base: U64, t: U64, id: U32, prev: U64, thread_fn: U64, ctx: U64,
                               return_address: U64)
    {
      && Mapped(m, t, TCB_SIZE)
      && ReadBlock(m, t) == Block(id, 1, 0, 0, CANARY, NULL, prev, 0)
      && TlsIs(m0, m, t, cia_tls_image_base, cia_tls_image_size)
      && FrameIs(m, base + 2 * Pow2(cia_stack_bits), thread_fn, ctx, return_address)
    }

    method PlaceThread(stack_base: U64, ret: int, thread_fn: U64, ctx: U64, return_address: U64) returns (tcb: U64)
      requires Valid() && ret < 0x8000_0000
      requires IsMapping(stack_base, cia_stack_bits) && Unmapped(mem, stack_base, 2 * Pow2(cia_stack_bits))
      modifies this
      ensures Valid() && tcb == TcbOf(stack_base, cia_stack_bits)
      ensures blocks == old(blocks) + [tcb] && BlocksMapped(old(mem), old(blocks))
      ensures Extends(LinkedMemory(old(mem), old(blocks), tcb), mem)
      ensures StartsWith(old(mem), mem, stack_base, tcb, ClonedId(ret), old(thread_blocks_head), thread_fn, ctx,
                         return_address)
    {
      hide ReadBlock, Pow2, Linked, BlocksMapped, TcbOf, Load, Store, Load64, Mapped, TlsIs, FrameIs, Unmapped,
        Extends, OffBlocks, SameOutside, LinkedMemory;
      ghost var m0, was, n := mem, blocks, 2 * Pow2(cia_stack_bits);
      tcb := TcbOf(stack_base, cia_stack_bits);
      PartsDisjoint(stack_base, cia_stack_bits, cia_tls_image_size);
      TcbInUpperHalf(stack_base, cia_stack_bits);
      hide IsMapping;
      PrepareBlock(stack_base, tcb);
      ReadyToLink(m0, mem, was, tcb, stack_base, n, cia_tls_image_base, cia_tls_image_size);
      LinkHead(tcb);
      ghost var m4 := mem;
      StartThread(was, stack_base, tcb, ret, thread_fn, ctx, return_address);
      KeepsOld(LinkedMemory(m0, was, tcb), m4, mem, stack_base, n, tcb, stack_base + n - tcb);
      TlsFrame(m0, m4, mem, tcb, cia_tls_image_base, cia_tls_image_size, tcb, stack_base + n - tcb);
    }

    /** _rt_thread_cancell_all_running starts at the newest block and follows next_tcb, which leads
      nowhere from there. So it marks that block and no other, and all blocks are marked afterwards
      if and only if all older ones were before. */
    method CancellAllRunning()
      requires Valid()
      modifies this`mem
      ensures Valid()
      ensures blocks == [] ==> mem == old(mem)
      ensures BlocksMapped(old(mem), blocks)
      ensures forall i :: 0 <= i < |blocks| ==>
                && Mapped(old(mem), blocks[i], TCB_SIZE)
                && ReadBlock(mem, blocks[i]) ==
                   if i == |blocks| - 1 then ReadBlock(old(mem), blocks[i]).(is_cancelled := 1)
                   else ReadBlock(old(mem), blocks[i])
      ensures CancelledUpTo(mem, blocks, |blocks|) <==> CancelledUpTo(old(mem), blocks, |blocks| - 1)
    {
      hide ReadBlock, Load, Store, Load64, Load32, Pow2, Linked, BlocksMapped, Mapped;
      ListHead(mem, blocks);
      CancelResult(mem, blocks);
      if blocks != [] {
        NewestHasNoNext(mem, blocks);
      }
      CancelledKeys(mem, blocks);
      SameKeysMapped(mem, Cancelled(mem, blocks), cia_tls_image_base, cia_tls_image_size);
      var tcb_cur := thread_blocks_head;
      while tcb_cur != NULL
        invariant tcb_cur == thread_blocks_head || tcb_cur == NULL
        invariant tcb_cur != NULL ==> mem == old(mem)
        invariant tcb_cur == NULL ==>
                    mem == Cancelled(old(mem), blocks)
        decreases tcb_cur != NULL
      {
        var tcb_next := Load64(mem, tcb_cur + NEXT_TCB);
        mem := Store32(mem, tcb_cur + IS_CANCELLED, 1);
        tcb_cur := tcb_next;
      }
    }

    /** The last part: state_finish, the frame from which the thread starts, and what the kernel does
      for a clone that returns `ret`. */
    method StartThread(ghost others: seq<nat>, stack_base: U64, tcb: U64, ret: int, thread_fn: U64, ctx: U64,
                       return_address: U64)
      requires Valid() && blocks == others + [tcb] && ret < 0x8000_0000
      requires Mapped(mem, tcb, TCB_SIZE) && ReadBlock(mem, tcb).thread_id == 0
      requires IsMapping(stack_base, cia_stack_bits) && tcb == TcbOf(stack_base, cia_stack_bits)
      requires Mapped(mem, stack_base, 2 * Pow2(cia_stack_bits))
      requires OffBlocks(others, stack_base, 2 * Pow2(cia_stack_bits))
      modifies this`mem
      ensures Valid() && Mapped(mem, tcb, TCB_SIZE)
      ensures ReadBlock(mem, tcb) == ReadBlock(old(mem), tcb).(state_finish := 1, thread_id := ClonedId(ret))
      ensures FrameIs(mem, stack_base + 2 * Pow2(cia_stack_bits), thread_fn, ctx, return_address)
      ensures SameOutside(old(mem), mem, tcb, stack_base + 2 * Pow2(cia_stack_bits) - tcb)
    {
      hide ReadBlock, Pow2, Linked, BlocksMapped, TcbOf, Load, Store, Load64, Load32;
      PartsDisjoint(stack_base, cia_stack_bits, cia_tls_image_size);
      hide IsMapping;
      var stack := stack_base + 2 * Pow2(cia_stack_bits);
      ghost var m4 := mem;
      PartOffBlocks(others, stack_base, 2 * Pow2(cia_stack_bits), tcb + STATE_FINISH, 4);
      PartOffBlocks(others, stack_base, 2 * Pow2(cia_stack_bits), tcb + THREAD_ID, 4);
      PartOffBlocks(others, stack_base, 2 * Pow2(cia_stack_bits), stack - FRAME_SIZE, FRAME_SIZE);
      hide OffBlocks;
      SetFinish(mem, tcb, 1);
      mem := Store32(mem, tcb + STATE_FINISH, 1);
      ghost var m5 := mem;
      LinkedKept(m4, m5, others, tcb, tcb + STATE_FINISH, 4);
      StartFrame(stack, thread_fn, ctx, return_address);
      BlockFrame(m5, mem, tcb, stack - FRAME_SIZE, FRAME_SIZE);
      LinkedKept(m5, mem, others, tcb, stack - FRAME_SIZE, FRAME_SIZE);
      if ret > 0 {
        StoreThreadId(others, tcb, ret, stack);
      }
    }

    /** clone stores the new thread's id at &tcb->thread_id before it returns to either thread. */
    method StoreThreadId(ghost others: seq<nat>, tcb: U64, id: U32, ghost stack: nat)
      requires Valid() && blocks == others + [tcb] && Mapped(mem, tcb, TCB_SIZE)
      requires OffBlocks(others, tcb + THREAD_ID, 4)
      requires tcb + TCB_SIZE <= stack - FRAME_SIZE && Mapped(mem, stack - FRAME_SIZE, FRAME_SIZE)
      modifies this`mem
      ensures Valid() && Mapped(mem, tcb, TCB_SIZE) && ReadBlock(mem, tcb) == ReadBlock(old(mem), tcb).(thread_id := id)
      ensures SameOutside(old(mem), mem, tcb + THREAD_ID, 4)
      ensures Mapped(mem, stack - FRAME_SIZE, FRAME_SIZE)
      ensures Load64(mem, stack - 24) == Load64(old(mem), stack - 24)
      ensures Load64(mem, stack - 16) == Load64(old(mem), stack - 16)
      ensures Load64(mem, stack - 8) == Load64(old(mem), stack - 8)
    {
      hide ReadBlock, Pow2, Linked, BlocksMapped, Load, Store, OffBlocks;
      ghost var was := mem;
      SetThreadId(mem, tcb, id);
      mem := Store32(mem, tcb + THREAD_ID, id);
      LinkedKept(was, mem, others, tcb, tcb + THREAD_ID, 4);
      LoadFrame(was, mem, tcb + THREAD_ID, 4, stack - 24, 8);
      LoadFrame(was, mem, tcb + THREAD_ID, 4, stack - 16, 8);
      LoadFrame(was, mem, tcb + THREAD_ID, 4, stack - 8, 8);
    }
  }

  ghost function Cancelled(m: Memory, blocks: seq<nat>): Memory
    requires BlocksMapped(m, blocks)
  {
    if blocks == [] then m
    else
      ListHead(m, blocks);
      Store32(m, blocks[|blocks| - 1] + IS_CANCELLED, 1)
  }

  lemma CancelledKeys(m: Memory, blocks: seq<nat>)
    requires BlocksMapped(m, blocks)
    ensures Cancelled(m, blocks).Keys == m.Keys
  {
    if blocks != [] {
      ListHead(m, blocks);
    }
  }

  ghost predicate CancelledUpTo(m: Memory, blocks: seq<nat>, k: int)
    requires BlocksMapped(m, blocks) && k <= |blocks|
  {
    forall i :: 0 <= i < k ==> ReadBlock(m, blocks[i]).is_cancelled == 1
  }

  lemma NewestHasNoNext(m: Memory, blocks: seq<nat>)
    requires BlocksMapped(m, blocks) && Linked(m, blocks) && blocks != []
    ensures Mapped(m, blocks[|blocks| - 1] + NEXT_TCB, 8) && Load64(m, blocks[|blocks| - 1] + NEXT_TCB) == NULL
  {
    hide Load64, Load, Load32, Mapped, BlocksMapped;
    ListHead(m, blocks);
    assert ReadBlock(m, blocks[|blocks| - 1]).next_tcb == After(blocks, |blocks| - 1);
  }

  lemma OthersApart(blocks: seq<nat>, h: nat)
    requires forall i :: 0 <= i < |blocks| ==> Apart(blocks[i], TCB_SIZE, h, TCB_SIZE)
    ensures OffBlocks(blocks, h + IS_CANCELLED, 4)
  {
  }

  /** Marking the newest block. */
  lemma CancelNewest(m: Memory, others: seq<nat>, h: nat)
    requires BlocksMapped(m, others + [h]) && Linked(m, others + [h])
    ensures BlocksMapped(m, others) && Mapped(m, h, TCB_SIZE)
    ensures var m' := Store32(m, h + IS_CANCELLED, 1);
            && BlocksMapped(m', others + [h]) && Linked(m', others + [h]) && BlocksMapped(m', others)
            && (forall i :: 0 <= i < |others| ==> ReadBlock(m', others[i]) == ReadBlock(m, others[i]))
            && Mapped(m', h, TCB_SIZE) && ReadBlock(m', h) == ReadBlock(m, h).(is_cancelled := 1)
  {
    NewestApart(m, others, h);
    OthersApart(others, h);
    var m' := Store32(m, h + IS_CANCELLED, 1);
    SetCancelled(m, h, 1);
    hide ReadBlock, Load, Store, Load32, Linked, SameOutside, Mapped;
    LinkedKept(m, m', others, h, h + IS_CANCELLED, 4);
    NewestApart(m', others, h);
    forall i | 0 <= i < |others| ensures ReadBlock(m', others[i]) == ReadBlock(m, others[i]) {
      BlockFrame(m, m', others[i], h + IS_CANCELLED, 4);
    }
  }

  /** The same by positions in the whole list. */
  lemma CancelResult(m: Memory, blocks: seq<nat>)
    requires BlocksMapped(m, blocks) && Linked(m, blocks)
    ensures var m' := Cancelled(m, blocks);
            && BlocksMapped(m', blocks) && Linked(m', blocks)
            && (forall i :: 0 <= i < |blocks| ==>
                  && Mapped(m, blocks[i], TCB_SIZE) && Mapped(m', blocks[i], TCB_SIZE)
                  && ReadBlock(m', blocks[i]) ==
                     if i == |blocks| - 1 then ReadBlock(m, blocks[i]).(is_cancelled := 1) else ReadBlock(m, blocks[i]))
  {
    hide ReadBlock, Load, Store, Load32, Linked, Mapped, BlocksMapped, SameOutside;
    if blocks != [] {
      var others, h := blocks[..|blocks| - 1], blocks[|blocks| - 1];
      assert others + [h] == blocks;
      ListHead(m, blocks);
      CancelNewest(m, others, h);
      var m' := Cancelled(m, blocks);
      AllMapped(m, blocks);
      AllMapped(m', blocks);
      forall i | 0 <= i < |blocks|
        ensures ReadBlock(m', blocks[i]) ==
                if i == |blocks| - 1 then ReadBlock(m, blocks[i]).(is_cancelled := 1) else ReadBlock(m, blocks[i])
      {
        if i < |blocks| - 1 {
          assert others[i] == blocks[i];
        }
      }
    }
  }

  lemma AllMapped(m: Memory, blocks: seq<nat>)
    requires BlocksMapped(m, blocks)
    ensures forall i :: 0 <= i < |blocks| ==> Mapped(m, blocks[i], TCB_SIZE)
  {
  }

  /** The words that a new thread shares with its clients are those with which `Threads` lets it
    start. */
  lemma NewThreadWords(r: Runtime, m0: Memory, m: Memory, base: U64, t: U64, id: U32, prev: U64, thread_fn: U64,
                       ctx: U64, return_address: U64, s: Threads.State)
    requires r.StartsWith(m0, m, base, t, id, prev, thread_fn, ctx, return_address)
    requires Threads.Init(s)
    ensures Mapped(m, t, TCB_SIZE)
    ensures var b := ReadBlock(m, t);
            Threads.Next(s, Threads.Prepare).tcb == Threads.Tcb(b.state_finish, b.state_detach, b.exit_code)
    ensures Load32(m, t) == id && Load32(m, t + 0x04) == 1 && Load32(m, t + 0x08) == 0 && Load32(m, t + 0x0c) == 0
    ensures Load64(m, t + 0x28) == 0x1234_5678_dead_beef && Load64(m, t + 0x30) == 0 && Load64(m, t + 0x38) == prev
    ensures Load32(m, t + 0x40) == 0
  {
    hide Load;
  }

  // ---------- growing memory ----------

  ghost predicate Unmapped(m: Memory, a: nat, n: nat) {
    forall i :: a <= i < a + n ==> i !in m
  }

  /** Every byte of `m` is still there in `m'`. */
  ghost predicate Extends(m: Memory, m': Memory) {
    forall a :: a in m ==> a in m' && m'[a] == m[a]
  }

  /** mmap: fresh pages filled with zeros. */
  function MapZeroPages(m: Memory, base: nat, n: nat): (m': Memory)
    requires Unmapped(m, base, n)
    ensures Extends(m, m') && Mapped(m', base, n)
    ensures forall a :: base <= a < base + n ==> m'[a] == 0
    ensures m'.Keys == m.Keys + ZeroPages(base, n).Keys
  {
    m + ZeroPages(base, n)
  }

  lemma NewRegionApart(m: Memory, base: nat, n: nat, x: nat, a: nat, k: nat)
    requires Unmapped(m, base, n) && Mapped(m, a, k) && base <= x && x + k <= base + n
    ensures Apart(x, k, a, k)
  {
    UnmappedApart(m, x, k, a, k);
  }

  lemma UnmappedApart(m: Memory, x: nat, n: nat, a: nat, k: nat)
    requires Unmapped(m, x, n) && Mapped(m, a, k) && (n > 0 || k == 0) && (k > 0 || n == 0)
    ensures Apart(x, n, a, k)
  {
    var z := if x < a then a else x;
    if z in m {
      assert !(x <= z < x + n);
    } else {
      assert !(a <= z < a + k);
    }
  }

  /** The range has no byte in common with any block. */
  ghost predicate OffBlocks(blocks: seq<nat>, base: nat, n: nat) {
    forall i :: 0 <= i < |blocks| ==> Apart(base, n, blocks[i], TCB_SIZE)
  }

  lemma NewRegionOffBlocks(m: Memory, blocks: seq<nat>, base: nat, n: nat)
    requires Unmapped(m, base, n) && n > 0 && BlocksMapped(m, blocks)
    ensures OffBlocks(blocks, base, n)
  {
    forall i | 0 <= i < |blocks| ensures Apart(base, n, blocks[i], TCB_SIZE) {
      UnmappedApart(m, base, n, blocks[i], TCB_SIZE);
    }
  }

  lemma ExtendsBlocks(m: Memory, m': Memory, blocks: seq<nat>)
    requires Extends(m, m') && BlocksMapped(m, blocks) && Linked(m, blocks)
    ensures BlocksMapped(m', blocks) && Linked(m', blocks)
  {
    KeysMapped(m, m', blocks);
    forall i | 0 <= i < |blocks| ensures ReadBlock(m', blocks[i]) == ReadBlock(m, blocks[i]) {
      SameBlock(m, m', blocks[i]);
    }
    hide ReadBlock, Mapped;
  }

  lemma AddBlock(m: Memory, blocks: seq<nat>, t: nat, base: nat, n: nat)
    requires BlocksMapped(m, blocks) && Mapped(m, t, TCB_SIZE) && NULL < t < TWO_TO_THE_64
    requires OffBlocks(blocks, base, n) && base <= t && t + TCB_SIZE <= base + n
    ensures BlocksMapped(m, blocks + [t])
  {
    var longer := blocks + [t];
    forall i | 0 <= i < |longer| ensures NULL < longer[i] < TWO_TO_THE_64 && Mapped(m, longer[i], TCB_SIZE) {
      if i < |blocks| {
        assert longer[i] == blocks[i];
      }
    }
    hide Mapped;
    forall i, j | 0 <= i < j < |longer| ensures Apart(longer[i], TCB_SIZE, longer[j], TCB_SIZE) {
      assert longer[i] == blocks[i];
      assert Apart(base, n, blocks[i], TCB_SIZE);
    }
  }

  lemma {:induction false} StoreExtends(m: Memory, m': Memory, a: nat, v: nat, n: nat)
    requires Extends(m, m') && Mapped(m, a, n) && Mapped(m', a, n)
    ensures Extends(Store(m, a, v, n), Store(m', a, v, n))
    decreases n
  {
    if n > 0 {
      StoreExtends(m[a := v % 0x100], m'[a := v % 0x100], a + 1, v / 0x100, n - 1);
    }
  }

  lemma LinkExtends(m: Memory, m': Memory, blocks: seq<nat>, t: U64)
    requires Extends(m, m') && BlocksMapped(m, blocks) && BlocksMapped(m', blocks)
    ensures Extends(LinkedMemory(m, blocks, t), LinkedMemory(m', blocks, t))
    ensures LinkedMemory(m, blocks, t).Keys == m.Keys && LinkedMemory(m', blocks, t).Keys == m'.Keys
  {
    hide BlocksMapped, Extends, Load, Store, Load64;
    if blocks != [] {
      ListHead(m, blocks);
      ListHead(m', blocks);
      StoreExtends(m, m', blocks[|blocks| - 1] + NEXT_TCB, t, 8);
    }
  }

  /** Linking a block in does not reach a range that is off the other blocks. */
  lemma LinkKeepsTls(m0: Memory, m: Memory, blocks: seq<nat>, t: U64, image: nat, n: nat, base: nat, size: nat)
    requires BlocksMapped(m, blocks) && TlsIs(m0, m, t, image, n)
    requires OffBlocks(blocks, base, size) && base <= t - n && t <= base + size && size > 0
    ensures TlsIs(m0, LinkedMemory(m, blocks, t), t, image, n)
  {
    if blocks != [] {
      ListHead(m, blocks);
      var h := blocks[|blocks| - 1];
      assert Apart(base, size, h, TCB_SIZE);
      var m' := LinkedMemory(m, blocks, t);
      assert SameOutside(m, m', h + NEXT_TCB, 8);
      hide LinkedMemory, SameOutside, BlocksMapped, Mapped, TlsIs, OffBlocks;
      TlsFrame(m0, m, m', t, image, n, h + NEXT_TCB, 8);
    }
  }

  /** A store that is off the other blocks and leaves the newest block's links alone keeps the list. */
  lemma LinkedKept(m: Memory, m': Memory, blocks: seq<nat>, t: nat, a: nat, n: nat)
    requires BlocksMapped(m, blocks + [t]) && Linked(m, blocks + [t]) && SameOutside(m, m', a, n)
    requires OffBlocks(blocks, a, n) && Mapped(m, t, TCB_SIZE) && Mapped(m', t, TCB_SIZE)
    requires ReadBlock(m', t).next_tcb == ReadBlock(m, t).next_tcb && ReadBlock(m', t).prev_tcb == ReadBlock(m, t).prev_tcb
    ensures BlocksMapped(m', blocks + [t]) && Linked(m', blocks + [t])
  {
    var longer := blocks + [t];
    assert m'.Keys == m.Keys;
    hide ReadBlock, SameOutside;
    KeysMapped(m, m', longer);
    forall i | 0 <= i < |longer|
      ensures ReadBlock(m', longer[i]).next_tcb == ReadBlock(m, longer[i]).next_tcb
      ensures ReadBlock(m', longer[i]).prev_tcb == ReadBlock(m, longer[i]).prev_tcb
    {
      hide Mapped;
      if i < |blocks| {
        assert longer[i] == blocks[i];
        assert Apart(a, n, blocks[i], TCB_SIZE);
        BlockFrame(m, m', blocks[i], a, n);
      }
    }
    hide Mapped;
  }

  lemma PartOffBlocks(blocks: seq<nat>, base: nat, n: nat, a: nat, k: nat)
    requires OffBlocks(blocks, base, n) && base <= a && a + k <= base + n
    ensures OffBlocks(blocks, a, k)
  {
    forall i | 0 <= i < |blocks| ensures Apart(a, k, blocks[i], TCB_SIZE) {
      assert Apart(base, n, blocks[i], TCB_SIZE);
    }
  }

  lemma ExtendsMapped(m: Memory, m': Memory, a: nat, n: nat)
    requires Extends(m, m') && Mapped(m, a, n)
    ensures Mapped(m', a, n)
  {
  }

  lemma SameKeysMapped(m: Memory, m': Memory, a: nat, n: nat)
    requires m'.Keys == m.Keys && Mapped(m, a, n)
    ensures Mapped(m', a, n)
  {
    forall i | a <= i < a + n ensures i in m' { assert i in m.Keys; }
  }

  lemma SameKeysUnmapped(m: Memory, m': Memory, a: nat, n: nat)
    requires m'.Keys == m.Keys && Unmapped(m, a, n)
    ensures Unmapped(m', a, n)
  {
    forall i | a <= i < a + n ensures i !in m' { assert i !in m.Keys; }
  }

  lemma KeepsOld(m0: Memory, m: Memory, m': Memory, base: nat, n: nat, a: nat, k: nat)
    requires Extends(m0, m) && Unmapped(m0, base, n)
    requires SameOutside(m, m', a, k) && base <= a && a + k <= base + n
    ensures Extends(m0, m')
  {
  }

  /** Everything about the list that linking the prepared block in needs, and what holds after. */
  lemma ReadyToLink(m0: Memory, m: Memory, blocks: seq<nat>, t: U64, base: nat, n: nat, image: nat, tls: nat)
    requires BlocksMapped(m0, blocks) && Linked(m0, blocks) && Unmapped(m0, base, n) && Mapped(m0, image, tls)
    requires Extends(m0, m) && Mapped(m, base, n) && Mapped(m, t, TCB_SIZE) && TlsIs(m0, m, t, image, tls)
    requires base <= t - tls && 0 < t && t + TCB_SIZE <= base + n
    ensures Mapped(m, image, tls) && OffBlocks(blocks, base, n)
    ensures BlocksMapped(m, blocks) && Linked(m, blocks) && BlocksMapped(m, blocks + [t])
    ensures var m0', m' := LinkedMemory(m0, blocks, t), LinkedMemory(m, blocks, t);
            && Extends(m0', m') && Unmapped(m0', base, n)
            && Mapped(m', base, n) && TlsIs(m0, m', t, image, tls)
  {
    hide Mapped, TlsIs, Unmapped, Extends, OffBlocks, LinkedMemory, BlocksMapped, Linked;
    NewRegionOffBlocks(m0, blocks, base, n);
    ExtendsMapped(m0, m, image, tls);
    ExtendsBlocks(m0, m, blocks);
    AddBlock(m, blocks, t, base, n);
    LinkExtends(m0, m, blocks, t);
    LinkKeepsTls(m0, m, blocks, t, image, tls, base, n);
    SameKeysMapped(m, LinkedMemory(m, blocks, t), base, n);
    SameKeysUnmapped(m0, LinkedMemory(m0, blocks, t), base, n);
  }

  // ---------- what the thread finds ----------

  /** The bytes below the block are those of the TLS image. */
  ghost predicate TlsIs(m0: Memory, m: Memory, t: nat, image: nat, n: nat) {
    && Mapped(m0, image, n) && n <= t && Mapped(m, t - n, n)
    && BytesFrom(m0, m, t - n, image, n)
  }

  lemma TlsFrame(m0: Memory, m: Memory, m': Memory, t: nat, image: nat, n: nat, a: nat, k: nat)
    requires TlsIs(m0, m, t, image, n) && SameOutside(m, m', a, k) && Apart(a, k, t - n, n)
    ensures TlsIs(m0, m', t, image, n)
  {
    var dst := t - n;
    forall i | 0 <= i < n ensures SameByte(m0, m', dst, image, i) {
      assert SameByte(m0, m, dst, image, i);
    }
  }

  lemma CopyExtends(m0: Memory, m1: Memory, m2: Memory, base: nat, size: nat, t: nat, image: nat, n: nat)
    requires Extends(m0, m1) && Unmapped(m0, base, size) && Mapped(m1, base, size) && Mapped(m0, image, n)
    requires base <= t - n <= t <= base + size && Mapped(m1, image, n) && Mapped(m1, t - n, n)
    requires Copied(m1, m2, t - n, image, n)
    ensures Extends(m0, m2) && Mapped(m2, base, size) && TlsIs(m0, m2, t, image, n)
  {
    var dst := t - n;
    forall i | 0 <= i < n ensures SameByte(m0, m2, dst, image, i) {
      assert SameByte(m1, m2, dst, image, i);
      assert image + i in m0;
    }
  }

  /** The three words from which a new thread starts. */
  ghost predicate FrameIs(m: Memory, stack: nat, thread_fn: U64, ctx: U64, return_address: U64) {
    && stack >= FRAME_SIZE && Mapped(m, stack - FRAME_SIZE, FRAME_SIZE)
    && Load64(m, stack - 24) == thread_fn && Load64(m, stack - 16) == ctx && Load64(m, stack - 8) == return_address
  }

  lemma ListHead(m: Memory, blocks: seq<nat>)
    requires BlocksMapped(m, blocks)
    ensures blocks != [] ==> blocks[|blocks| - 1] != NULL && Mapped(m, blocks[|blocks| - 1], TCB_SIZE) && Mapped(m, blocks[|blocks| - 1] + NEXT_TCB, 8) && Mapped(m, blocks[|blocks| - 1] + IS_CANCELLED, 4)
  {
  }

  lemma KeysKeepMapped(m: Memory, a: nat, v: U64, b: nat, n: nat)
    requires Mapped(m, a, 8) && Mapped(m, b, n)
    ensures Mapped(Store64(m, a, v), b, n)
  {
  }

  /** The memory once `t` is behind the newest block. */
  function LinkedMemory(m: Memory, blocks: seq<nat>, t: U64): Memory
    requires BlocksMapped(m, blocks)
  {
    if blocks == [] then m
    else
      ListHead(m, blocks);
      Store64(m, blocks[|blocks| - 1] + NEXT_TCB, t)
  }

  lemma LinkResult(m: Memory, blocks: seq<nat>, t: U64)
    requires BlocksMapped(m, blocks) && Linked(m, blocks) && BlocksMapped(m, blocks + [t]) && Mapped(m, t, TCB_SIZE)
    requires ReadBlock(m, t).next_tcb == NULL
    requires ReadBlock(m, t).prev_tcb == if blocks == [] then NULL else blocks[|blocks| - 1]
    ensures var m' := LinkedMemory(m, blocks, t);
            && BlocksMapped(m', blocks + [t]) && Linked(m', blocks + [t])
            && Mapped(m', t, TCB_SIZE) && ReadBlock(m', t) == ReadBlock(m, t)
            && (blocks != [] ==>
                  var h := blocks[|blocks| - 1];
                  && Mapped(m, h, TCB_SIZE) && Mapped(m', h, TCB_SIZE)
                  && SameOutside(m, m', h + NEXT_TCB, 8)
                  && ReadBlock(m', h) == ReadBlock(m, h).(next_tcb := t))
  {
    hide ReadBlock, Load, Store, Load64, Linked, BlocksMapped, Mapped, SameOutside, Apart;
    var m' := LinkedMemory(m, blocks, t);
    NewestApart(m, blocks, t);
    ListHead(m, blocks);
    if blocks != [] {
      SetNext(m, blocks[|blocks| - 1], t);
      LinkedFrame(m, m', blocks, t);
    }
    LinkIn(m, m', blocks, t);
  }

  lemma NewestApart(m: Memory, blocks: seq<nat>, t: nat)
    requires BlocksMapped(m, blocks + [t])
    ensures BlocksMapped(m, blocks) && Mapped(m, t, TCB_SIZE)
    ensures forall i :: 0 <= i < |blocks| ==> Apart(blocks[i], TCB_SIZE, t, TCB_SIZE)
  {
    var longer := blocks + [t];
    assert longer[|blocks|] == t;
    forall i | 0 <= i < |blocks|
      ensures NULL < blocks[i] < TWO_TO_THE_64 && Mapped(m, blocks[i], TCB_SIZE) && Apart(blocks[i], TCB_SIZE, t, TCB_SIZE)
    {
      assert longer[i] == blocks[i];
      assert Apart(longer[i], TCB_SIZE, longer[|blocks|], TCB_SIZE);
    }
    forall i, j | 0 <= i < j < |blocks| ensures Apart(blocks[i], TCB_SIZE, blocks[j], TCB_SIZE) {
      assert Apart(longer[i], TCB_SIZE, longer[j], TCB_SIZE);
    }
  }

  /** Storing the newest block's next_tcb leaves the other blocks and the one to come alone. */
  lemma LinkedFrame(m: Memory, m': Memory, blocks: seq<nat>, t: nat)
    requires blocks != [] && BlocksMapped(m, blocks + [t]) && BlocksMapped(m, blocks) && Mapped(m, t, TCB_SIZE)
    requires SameOutside(m, m', blocks[|blocks| - 1] + NEXT_TCB, 8)
    requires forall i :: 0 <= i < |blocks| ==> Apart(blocks[i], TCB_SIZE, t, TCB_SIZE)
    ensures BlocksMapped(m', blocks + [t]) && BlocksMapped(m', blocks) && Mapped(m', t, TCB_SIZE)
    ensures forall i :: 0 <= i < |blocks| - 1 ==> ReadBlock(m', blocks[i]) == ReadBlock(m, blocks[i])
    ensures ReadBlock(m', t) == ReadBlock(m, t)
  {
    hide ReadBlock;
    KeysMapped(m, m', blocks);
    KeysMapped(m, m', blocks + [t]);
    var h := blocks[|blocks| - 1];
    assert Apart(h, TCB_SIZE, t, TCB_SIZE);
    BlockFrame(m, m', t, h + NEXT_TCB, 8);
    forall i | 0 <= i < |blocks| - 1 ensures ReadBlock(m', blocks[i]) == ReadBlock(m, blocks[i]) {
      assert Apart(blocks[i], TCB_SIZE, blocks[|blocks| - 1], TCB_SIZE);
      BlockFrame(m, m', blocks[i], h + NEXT_TCB, 8);
    }
  }

  lemma KeysMapped(m: Memory, m': Memory, blocks: seq<nat>)
    requires BlocksMapped(m, blocks) && m.Keys <= m'.Keys
    ensures BlocksMapped(m', blocks)
  {
    forall i | 0 <= i < |blocks| ensures Mapped(m', blocks[i], TCB_SIZE) {
      assert Mapped(m, blocks[i], TCB_SIZE);
      forall a | blocks[i] <= a < blocks[i] + TCB_SIZE ensures a in m' {
        assert a in m.Keys;
      }
    }
  }
}
