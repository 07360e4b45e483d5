/** The buffered reader and the parser of loader/stack.c in their own form. The file is read in
  pieces of whatever length the kernel chooses to return. */
module MapsReader {
  import opened Machine
  import opened Digits
  import opened Maps

  const LINE_BUF_SIZE: nat := 1024

  function Min(a: nat, b: nat): nat {
    if a < b then a else b
  }

  /** What read_char leaves in `last_char` when it is called for the (k+1)-th time. */
  function CharAt(file: string, k: nat): int {
    if k < |file| then SignedChar(file[k]) else -1
  }

  /** An int stored in a `char`. */
  function AsChar(ch: int): char
    requires -0x80 <= ch < 0x80
  {
    (if ch < 0 then ch + 0x100 else ch) as char
  }

  lemma StoredAsRead(s: string)
    requires Bytes(s) && s != ""
    ensures -0x80 <= Cur(s) < 0x80 && AsChar(Cur(s)) == s[0]
  {
  }

  lemma RestMovesOn(file: string, k: nat)
    ensures Cur(file[Min(k, |file|)..]) == CharAt(file, k)
    ensures k > 0 ==> file[Min(k, |file|)..] == Adv(file[Min(k - 1, |file|)..])
    ensures k == 0 ==> file[Min(k, |file|)..] == file
  {
  }

  lemma DeliveredNext(file: string, d: seq<int>)
    requires forall k :: 0 <= k < |d| ==> d[k] == CharAt(file, k)
    ensures var longer := d + [CharAt(file, |d|)];
            forall k :: 0 <= k < |longer| ==> longer[k] == CharAt(file, k)
  {
  }

  lemma Regroup(a: string, b: string, c: string)
    ensures a + (b + c) == (a + b) + c
  {
  }

  /** What one turn of the parser's loop decides. */
  datatype Turn = BadLine | SkippedLine | ReportedLine(info: StackInfo)

  class FileBuffer {
    /** The contents of the open file, and how much of it the kernel has delivered. */
    const file: string
    var file_pos: nat

    const data: array<char>
    const data_size: nat
    var last_read_size: nat
    var offset: nat
    var last_char: int

    /** The values of last_char so far, oldest first. */
    ghost var delivered: seq<int>

    ghost predicate Valid()
      reads this, data
    {
      && Bytes(file)
      && 0 < data_size && data.Length == data_size + 1
      && offset <= last_read_size <= data_size && last_read_size - offset <= file_pos <= |file|
      && data[offset..last_read_size] == file[Taken()..file_pos]
      && Taken() == Min(|delivered|, |file|)
      && (forall k :: 0 <= k < |delivered| ==> delivered[k] == CharAt(file, k))
      && (delivered != [] ==> last_char == delivered[|delivered| - 1])
    }

    /** The number of characters handed out. */
    function Taken(): nat
      requires last_read_size - offset <= file_pos && offset <= last_read_size
      reads this
    {
      file_pos - (last_read_size - offset)
    }

    /** The text from the character in last_char on. */
    ghost function Rest(): string
      requires delivered != []
      reads this
    {
      file[Min(|delivered| - 1, |file|)..]
    }

    constructor (file: string, data_size: nat)
      requires Bytes(file) && data_size > 0
      ensures Valid() && this.file == file && delivered == [] && fresh(data)
    {
      this.file := file;
      this.data_size := data_size;
      // one spare slot: after a full read the terminator goes behind the last byte
      this.data := new char[data_size + 1];
      this.file_pos := 0;
      this.last_read_size := 0;
      this.offset := 0;
      this.last_char := 0;
      this.delivered := [];
    }

    /** The read system call: 0 at the end of the file, else any positive number of bytes that are
      left and fit. */
    method SysRead() returns (result: nat)
      requires data.Length == data_size + 1 && 0 < data_size && file_pos <= |file|
      modifies `file_pos, data
      ensures file_pos == old(file_pos) + result <= |file| && result <= data_size
      ensures data[..result] == file[old(file_pos)..file_pos]
      ensures result == 0 <==> old(file_pos) == |file|
    {
      if file_pos == |file| {
        result := 0;
      } else {
        var k: nat :| 1 <= k && k <= data_size && k <= |file| - file_pos;
        result := k;
        for i := 0 to k
          invariant file_pos == old(file_pos) && data[..i] == file[file_pos..file_pos + i]
        {
          data[i] := file[file_pos + i];
        }
        file_pos := file_pos + result;
      }
    }

    /** read_char hands out the next byte of the file, and -1 for ever once there is none, however
      the reads split the file. `fails` says whether the kernel fails the read if one is needed: then
      the call returns -1, but leaves last_char and everything else as it was. */
    method ReadChar(fails: bool := false) returns (ch: int)
      requires Valid()
      modifies this, data
      ensures Valid()
      ensures fails && old(offset >= last_read_size) ==>
                && ch == -1 && delivered == old(delivered) && last_char == old(last_char)
                && offset == old(offset) && last_read_size == old(last_read_size) && file_pos == old(file_pos)
      ensures !(fails && old(offset >= last_read_size)) ==>
                && delivered == old(delivered) + [CharAt(file, |old(delivered)|)]
                && ch == last_char == CharAt(file, |old(delivered)|) == Cur(Rest())
                && (if old(delivered) == [] then Rest() == file else Rest() == Adv(old(Rest())))
    {
      hide Valid, CharAt, Cur, Adv, Min, Bytes;
      if fails && offset >= last_read_size {
        return -1;
      }
      ch := ReadWell();
    }

    /** read_char when no read fails. */
    method ReadWell() returns (ch: int)
      requires Valid()
      modifies this, data
      ensures Valid()
      ensures delivered == old(delivered) + [CharAt(file, |old(delivered)|)]
      ensures ch == last_char == CharAt(file, |old(delivered)|) == Cur(Rest())
      ensures if old(delivered) == [] then Rest() == file else Rest() == Adv(old(Rest()))
    {
      hide Valid, CharAt, Cur, Adv, Min, Bytes;
      RestMovesOn(file, |delivered|);
      if offset >= last_read_size {
        var result := Refill();
        if result == 0 {
          ch := HandOutEnd();
          return;
        }
      }
      ch := HandOut();
    }

    /** What read_char does at the end of the file. */
    method HandOutEnd() returns (ch: int)
      requires Valid() && offset >= last_read_size && |delivered| >= |file|
      modifies `last_char, `delivered
      ensures Valid()
      ensures delivered == old(delivered) + [CharAt(file, |old(delivered)|)]
      ensures ch == last_char == CharAt(file, |old(delivered)|)
    {
      assert CharAt(file, |delivered|) == -1;
      assert Min(|delivered|, |file|) == |file| == Min(|delivered| + 1, |file|);
      DeliveredNext(file, delivered);
      hide CharAt, Bytes, Min, Cur;
      last_char := -1;
      delivered := delivered + [-1];
      ch := last_char;
    }

    /** The part of read_char that fills the buffer anew. When nothing is left to read, the size of
      the last read stays as it is. */
    method Refill() returns (result: nat)
      requires Valid() && offset >= last_read_size
      modifies `file_pos, `last_read_size, `offset, data
      ensures Valid()
      ensures if result == 0 then |delivered| >= |file| && offset >= last_read_size else offset < last_read_size
    {
      hide CharAt, Bytes, Cur;
      result := SysRead();
      if result == 0 {
        assert data[offset..last_read_size] == [];
      } else {
        data[result] := 0 as char;
        last_read_size := result;
        offset := 0;
        assert data[offset..last_read_size] == data[..result];
      }
    }

    /** The part of read_char behind the refill. */
    method HandOut() returns (ch: int)
      requires Valid() && offset < last_read_size
      modifies `offset, `last_char, `delivered
      ensures Valid()
      ensures delivered == old(delivered) + [CharAt(file, |old(delivered)|)]
      ensures ch == last_char == CharAt(file, |old(delivered)|)
    {
      TakeHead();
      var cur_offset := offset;
      offset := offset + 1;
      last_char := SignedChar(data[cur_offset]);
      delivered := delivered + [last_char];
      ch := last_char;
    }

    /** The next byte in the buffer is the next byte of the file. */
    lemma TakeHead()
      requires offset < last_read_size <= data_size && data.Length == data_size + 1
      requires last_read_size - offset <= file_pos <= |file| && Bytes(file)
      requires data[offset..last_read_size] == file[Taken()..file_pos]
      ensures data[offset] == file[Taken()] && data[offset] as int < 0x100
      ensures data[offset + 1..last_read_size] == file[Taken() + 1..file_pos]
    {
      var b, f := data[offset..last_read_size], file[Taken()..file_pos];
      assert b[0] == data[offset] && f[0] == file[Taken()];
      assert b[1..] == data[offset + 1..last_read_size] && f[1..] == file[Taken() + 1..file_pos];
    }

    /** read_hex */
    method ReadHexNumber() returns (status: int, result: U64)
      requires Valid() && delivered != []
      modifies this, data
      ensures Valid() && delivered != []
      ensures (result, Rest()) == ReadHex(old(Rest()), 0)
      ensures status == if |Rest()| == |old(Rest())| then -1 else 0
    {
      hide Valid, Rest;
      result := 0;
      var n_digits := 0;
      CurIsLast();
      while CharIsHex(last_char)
        invariant Valid() && delivered != [] && last_char == Cur(Rest())
        invariant ReadHex(Rest(), result) == ReadHex(old(Rest()), 0)
        invariant |Rest()| + n_digits == |old(Rest())|
        decreases |Rest()|
      {
        result := (result * 16 + CharToHex(last_char)) % TWO_TO_THE_64;
        var _ := ReadChar();
        n_digits := n_digits + 1;
      }
      status := if n_digits == 0 then -1 else 0;
    }

    /** read_dec */
    method ReadDecNumber() returns (status: int, result: U64)
      requires Valid() && delivered != []
      modifies this, data
      ensures Valid() && delivered != []
      ensures (result, Rest()) == ReadDec(old(Rest()), 0)
      ensures status == if |Rest()| == |old(Rest())| then -1 else 0
    {
      hide Valid, Rest;
      result := 0;
      var n_digits := 0;
      CurIsLast();
      while CharIsDec(last_char)
        invariant Valid() && delivered != [] && last_char == Cur(Rest())
        invariant ReadDec(Rest(), result) == ReadDec(old(Rest()), 0)
        invariant |Rest()| + n_digits == |old(Rest())|
        decreases |Rest()|
      {
        result := (result * 10 + (last_char - '0' as int)) % TWO_TO_THE_64;
        var _ := ReadChar();
        n_digits := n_digits + 1;
      }
      status := if n_digits == 0 then -1 else 0;
    }

    lemma RestIsBytes()
      requires Valid() && delivered != []
      ensures Bytes(Rest())
    {
    }

    lemma CurIsLast()
      requires Valid() && delivered != []
      ensures last_char == Cur(Rest())
    {
    }

    /** The part of linux_read_stack_info that reads the two addresses of a line. */
    method ReadAddresses() returns (ok: bool, start_addr: U64, end_addr: U64)
      requires Valid() && delivered != []
      modifies this, data
      ensures Valid() && delivered != []
      ensures match ReadHead(old(Rest()))
              case BadHead => !ok
              case Head(start, end, rest) => ok && start_addr == start && end_addr == end && Rest() == rest
    {
      hide Valid, Rest, ReadHex;
      var failed;
      ok, end_addr := false, 0;
      failed, start_addr := ReadHexNumber();
      CurIsLast();
      if failed != 0 || last_char != '-' as int {
        return;
      }
      var ch := ReadChar();
      if ch < 0 {
        return;
      }
      failed, end_addr := ReadHexNumber();
      if failed < 0 {
        return;
      }
      ch := ReadChar();
      if ch < 0 {
        return;
      }
      ok := true;
    }

    /** The four permission characters of a line. */
    method ReadPermissions() returns (flags: U32)
      requires Valid() && delivered != []
      modifies this, data
      ensures Valid() && delivered != []
      ensures flags == ReadFlags(old(Rest())) && Rest() == Skip(old(Rest()), 4)
    {
      hide Valid, Rest, CharAt, Cur, Adv;
      CurIsLast();
      ghost var s := Rest();
      var r, w, x, sh := 0, 0, 0, 0;
      if last_char == 'r' as int { r := VM_READ; }
      var _ := ReadChar();
      if last_char == 'w' as int { w := VM_WRITE; }
      var _ := ReadChar();
      if last_char == 'x' as int { x := VM_EXEC; }
      var _ := ReadChar();
      if last_char == 's' as int { sh := VM_SHARED; }
      var _ := ReadChar();
      // distinct bits, so that the bitwise or is the sum
      flags := r + w + x + sh;
      assert Skip(s, 4) == Adv(Adv(Adv(Adv(s)))) by {
        assert Skip(s, 4) == Skip(Adv(s), 3) == Skip(Adv(Adv(s)), 2) == Skip(Adv(Adv(Adv(s))), 1);
      }
    }

    method SkipCharacters(n: nat)
      requires Valid() && delivered != []
      modifies this, data
      ensures Valid() && delivered != []
      ensures Rest() == Skip(old(Rest()), n)
    {
      hide Valid, Rest, CharAt, Cur, Adv;
      var i := 0;
      while i != n
        invariant 0 <= i <= n && Valid() && delivered != []
        invariant Skip(Rest(), n - i) == Skip(old(Rest()), n)
        decreases n - i
      {
        var _ := ReadChar();
        i := i + 1;
      }
    }

    method SkipWhitespace()
      requires Valid() && delivered != []
      modifies this, data
      ensures Valid() && delivered != []
      ensures Rest() == SkipSpaces(old(Rest()))
    {
      CurIsLast();
      while last_char == ' ' as int
        invariant Valid() && delivered != [] && last_char == Cur(Rest())
        invariant SkipSpaces(Rest()) == SkipSpaces(old(Rest()))
        decreases |Rest()|
      {
        var _ := ReadChar();
      }
    }

    /** The name of the mapping, into a buffer with one spare slot for the terminator. */
    method ReadName() returns (name_buf: array<char>, name_len: nat)
      requires Valid() && delivered != []
      modifies this, data
      ensures Valid() && delivered != [] && name_len <= NAME_BUF_SIZE
      ensures fresh(name_buf) && name_buf.Length == NAME_BUF_SIZE + 1
      ensures (name_buf[..name_len], Rest()) == TakeName(old(Rest()), NAME_BUF_SIZE)
    {
      hide Valid, Rest, TakeName, CharAt, Adv;
      name_buf := new char[NAME_BUF_SIZE + 1];
      name_len := 0;
      CurIsLast();
      ghost var (name, rest) := TakeName(Rest(), NAME_BUF_SIZE);
      assert name_buf[..0] + name == name;
      while name_len < NAME_BUF_SIZE && last_char != NEWLINE && last_char != -1
        invariant name_len <= NAME_BUF_SIZE && fresh(name_buf) && name_buf.Length == NAME_BUF_SIZE + 1
        invariant Valid() && delivered != [] && last_char == Cur(Rest())
        invariant name_buf[..name_len] + TakeName(Rest(), NAME_BUF_SIZE - name_len).0 == name
        invariant TakeName(Rest(), NAME_BUF_SIZE - name_len).1 == rest
        decreases NAME_BUF_SIZE - name_len
      {
        ghost var before, s := name_buf[..name_len], Rest();
        TakeNameStep(s, NAME_BUF_SIZE - name_len);
        RestIsBytes();
        StoredAsRead(s);
        name_buf[name_len] := AsChar(last_char);
        var _ := ReadChar();
        name_len := name_len + 1;
        assert name_buf[..name_len] == before + [s[0]];
        Regroup(before, [s[0]], TakeName(Rest(), NAME_BUF_SIZE - name_len).0);
      }
      TakeNameStep(Rest(), NAME_BUF_SIZE - name_len);
      assert name_buf[..name_len] + "" == name_buf[..name_len];
      name_buf[name_len] := 0 as char;
      assert name_buf[..name_len] == name;
    }

    /** One turn of the loop of linux_read_stack_info, behind the newline. */
    method ReadLine() returns (r: Turn)
      requires Valid() && delivered != []
      modifies this, data
      ensures Valid() && delivered != []
      ensures match ReadRecord(old(Rest()))
              case BadRecord => r == BadLine
              case Skipped(rest) => r == SkippedLine && Rest() == rest
              case Reported(info) => r == ReportedLine(info)
    {
      hide Valid, Rest, ReadHead, ReadDec, Skip, ReadFlags, TakeName, SkipSpaces;
      var ok, start_addr, end_addr := ReadAddresses();
      if !ok {
        return BadLine;
      }
      ghost var s4 := Rest();
      var flags := ReadPermissions();
      SkipCharacters(16);
      SkipTwice(s4, 4, 16);
      var failed, inode := ReadDecNumber();
      CurIsLast();
      if failed != 0 {
        return BadLine;
      }
      if last_char == NEWLINE || last_char == -1 {
        return SkippedLine;
      }
      SkipWhitespace();
      var name_buf, name_len := ReadName();
      if name_len != 7 {
        return SkippedLine;
      }
      for i := 0 to 7 {
        if name_buf[i] != STACK_NAME[i] {
          continue;
        }
      }
      r := ReportedLine(StackInfo(start_addr, end_addr, flags));
    }
  }

  lemma TakeNameStep(s: string, room: nat)
    ensures room == 0 || Cur(s) == NEWLINE || Cur(s) == -1 ==> TakeName(s, room) == ("", s)
    ensures room > 0 && Cur(s) != NEWLINE && Cur(s) != -1 ==>
              TakeName(s, room) == ([s[0]] + TakeName(Adv(s), room - 1).0, TakeName(Adv(s), room - 1).1)
  {
  }

  class Loader {
    var stack_info: StackInfo
    var stack_found: bool

    constructor ()
      ensures !stack_found
    {
      stack_info := StackInfo(0, 0, 0);
      stack_found := false;
    }

    /** linux_read_stack_info on a file with these contents; `canOpen` says whether it could be
      opened. It always terminates, and every way the reads may split the file gives one result. */
    method LinuxReadStackInfo(file: string, canOpen: bool) returns (status: int)
      requires Bytes(file)
      modifies this
      ensures !canOpen ==> status == -1
      ensures canOpen ==> status == (match ParseMaps(file) case Found(_) => 0 case NoStack => 1 case Malformed => -1)
      ensures if canOpen && ParseMaps(file).Found? then stack_found && stack_info == ParseMaps(file).info
              else stack_found == old(stack_found) && stack_info == old(stack_info)
    {
      hide ReadRecord, Bytes, FileBuffer.Valid, FileBuffer.Rest;
      if !canOpen {
        return -1;
      }
      var buffer := new FileBuffer(file, LINE_BUF_SIZE);
      var ch := buffer.ReadChar();
      if ch < 0 {
        return -1;
      }
      while buffer.last_char != -1
        invariant buffer.Valid() && fresh(buffer) && fresh(buffer.data) && buffer.delivered != []
        invariant buffer.last_char == Cur(buffer.Rest())
        invariant ParseLines(buffer.Rest()) == ParseMaps(file)
        invariant stack_found == old(stack_found) && stack_info == old(stack_info)
        decreases |buffer.Rest()|
      {
        if buffer.last_char == NEWLINE {
          ch := buffer.ReadChar();
        }
        var turn := buffer.ReadLine();
        if turn.BadLine? {
          return -1;
        }
        if turn.SkippedLine? {
          buffer.CurIsLast();
          continue;
        }
        stack_found := true;
        stack_info := turn.info;
        return 0;
      }
      return 1;
    }

    /** On what the kernel renders for any list of mappings that has a "[stack]", however it splits
      the reads, linux_read_stack_info succeeds, and what it stores is exactly the stack's record if
      and only if no earlier name has seven characters. */
    method ReadRenderedStack(ms: seq<Mapping>, ghost k: nat) returns (status: int)
      requires (forall i :: 0 <= i < |ms| ==> WellFormed(ms[i])) && Ascending(ms)
      requires k < |ms| && ms[k].name == STACK_NAME
      modifies this
      ensures status == 0 && stack_found
      ensures stack_info == Info(ms[k]) <==> forall i :: 0 <= i < k ==> |Shown(ms[i])| != 7
    {
      BytesOfRender(ms);
      StackFoundIff(ms, k);
      hide Render, ParseMaps, WellFormed, Shown, Bytes;
      status := LinuxReadStackInfo(Render(ms), true);
    }
  }

  lemma {:induction false} SkipTwice(s: string, a: nat, b: nat)
    ensures Skip(Skip(s, a), b) == Skip(s, a + b)
    decreases a
  {
    if a > 0 {
      SkipTwice(Adv(s), a - 1, b);
    }
  }
}
