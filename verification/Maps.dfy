/** The text of /proc/self/maps: how the kernel writes it, how linux_read_stack_info of
  loader/stack.c reads it, and what the second makes of the first. */
module Maps {
  import opened Machine
  import opened Digits

  const VM_READ: nat := 1
  const VM_WRITE: nat := 2
  const VM_EXEC: nat := 4
  const VM_SHARED: nat := 8
  const NAME_BUF_SIZE: nat := 256
  const NEWLINE: int := '\n' as int

  datatype StackInfo = StackInfo(start: U64, end: U64, flags: U32)

  /** Found is return value 0, NoStack is 1 and Malformed is -1. */
  datatype Outcome = Found(info: StackInfo) | NoStack | Malformed

  // ---------- reading ----------

  function Skip(s: string, n: nat): (r: string)
    ensures |r| <= |s|
    decreases n
  {
    if n == 0 then s else Skip(Adv(s), n - 1)
  }

  function SkipSpaces(s: string): (r: string)
    ensures |r| <= |s|
  {
    if Cur(s) == ' ' as int then SkipSpaces(Adv(s)) else s
  }

  /** At most `room` characters up to the end of the line, and the text behind them. */
  function TakeName(s: string, room: nat): (r: (string, string))
    ensures |r.1| <= |s| && |r.0| <= room
    decreases room
  {
    if room == 0 || Cur(s) == NEWLINE || Cur(s) == -1 then ("", s)
    else var (name, rest) := TakeName(Adv(s), room - 1); ([s[0]] + name, rest)
  }

  function FlagIf(s: string, c: char, flag: nat): nat {
    if Cur(s) == c as int then flag else 0
  }

  /** The four permission characters, each read on its own. */
  function ReadFlags(s: string): (flags: U32)
  {
    var s1 := Adv(s);
    var s2 := Adv(s1);
    var r, w, x, sh := FlagIf(s, 'r', VM_READ), FlagIf(s1, 'w', VM_WRITE), FlagIf(s2, 'x', VM_EXEC), FlagIf(Adv(s2), 's', VM_SHARED);
    assert r <= 1 && w <= 2 && x <= 4 && sh <= 8;
    r + w + x + sh
  }

  /** The start of a line: both addresses and the text from the permissions on. */
  datatype Head = Head(start: U64, end: U64, rest: string) | BadHead

  function ReadHead(s: string): (h: Head)
    ensures h.Head? ==> |h.rest| < |s|
  {
    var (start, s1) := ReadHex(s, 0);
    if |s1| == |s| || Cur(s1) != '-' as int || Cur(Adv(s1)) < 0 then BadHead
    else
      var (end, s3) := ReadHex(Adv(s1), 0);
      if |s3| == |Adv(s1)| || Cur(Adv(s3)) < 0 then BadHead
      else Head(start, end, Adv(s3))
  }

  /** One record: malformed, skipped up to its newline, or reported. */
  datatype Record = BadRecord | Skipped(rest: string) | Reported(info: StackInfo)

  /** One turn of the loop over the lines. The comparison with the name "[stack]" continues its own
    inner loop on a mismatch, so only the length of the name counts. */
  function ReadRecord(s: string): (r: Record)
    ensures r.Skipped? ==> |r.rest| < |s|
  {
    match ReadHead(s)
    case BadHead => BadRecord
    case Head(start, end, s4) =>
      var s5 := Skip(s4, 20);
      var (inode, s6) := ReadDec(s5, 0);
      if |s6| == |s5| then BadRecord
      else if Cur(s6) == NEWLINE || Cur(s6) == -1 then Skipped(s6)
      else
        var (name, s7) := TakeName(SkipSpaces(s6), NAME_BUF_SIZE);
        if |name| != 7 then Skipped(s7)
        else Reported(StackInfo(start, end, ReadFlags(s4)))
  }

  /** The loop over the lines; `s` starts at the character in `last_char`. */
  function ParseLines(s: string): Outcome
    decreases |s|
  {
    if Cur(s) == -1 then NoStack
    else
      match ReadRecord(if Cur(s) == NEWLINE then Adv(s) else s)
      case BadRecord => Malformed
      case Skipped(rest) => ParseLines(rest)
      case Reported(info) => Found(info)
  }

  function ParseMaps(file: string): Outcome {
    if Cur(file) < 0 then Malformed else ParseLines(file)
  }

  // ---------- writing ----------

  /** One record. `pad` is the number of blanks the kernel puts between inode and name. */
  datatype Mapping = Mapping(start: U64, end: U64, readable: bool, writable: bool, executable: bool, shared: bool,
                             offset: string, device: string, inode: nat, pad: nat, name: string)

  function Spaces(n: nat): string {
    if n == 0 then "" else " " + Spaces(n - 1)
  }

  function Perms(m: Mapping): (p: string)
    ensures |p| == 4
  {
    [if m.readable then 'r' else '-', if m.writable then 'w' else '-',
     if m.executable then 'x' else '-', if m.shared then 's' else 'p']
  }

  /** Eight digits of offset and five characters of device, with the blanks around them. */
  function Middle(m: Mapping): string {
    " " + m.offset + " " + m.device + " "
  }

  /** The line of a mapping, followed by `rest`. */
  function Line(m: Mapping, rest: string): string {
    Fields(m, m.name + ("\n" + rest))
  }

  /** The fields in front of the name, followed by `tail`. */
  function Fields(m: Mapping, tail: string): string {
    Padded(m.start, 16, 8) + ("-" + (Padded(m.end, 16, 8) + (" " + AfterAddresses(m, tail))))
  }

  function AfterAddresses(m: Mapping, tail: string): string {
    (Perms(m) + Middle(m)) + (Padded(m.inode, 10, 1) + (Spaces(m.pad) + tail))
  }

  function Render(ms: seq<Mapping>): string {
    if ms == [] then "" else Line(ms[0], Render(ms[1..]))
  }

  predicate WellFormed(m: Mapping) {
    Printable(m) && |Shown(m)| < NAME_BUF_SIZE
  }

  /** The name without leading blanks, which the parser takes for part of the padding. */
  function Shown(m: Mapping): string {
    SkipSpaces(m.name)
  }

  predicate Printable(m: Mapping) {
    && |m.offset| == 8 && Bytes(m.offset) && |m.device| == 5 && Bytes(m.device)
    && '\n' !in m.name && (forall i :: 0 <= i < |m.name| ==> m.name[i] as int < 0xff)
    && (m.name != "" ==> m.pad > 0)
  }

  function Info(m: Mapping): StackInfo {
    StackInfo(m.start, m.end,
              (if m.readable then VM_READ else 0) + (if m.writable then VM_WRITE else 0)
              + (if m.executable then VM_EXEC else 0) + (if m.shared then VM_SHARED else 0))
  }

  /** The flags are those of the kernel: 1 for reading, 2 for writing, 4 for executing, 8 for sharing. */
  lemma FlagValues(m: Mapping)
    ensures Info(m).flags % 2 == (if m.readable then 1 else 0) && Info(m).flags / 2 % 2 == (if m.writable then 1 else 0)
    ensures Info(m).flags / 4 % 2 == (if m.executable then 1 else 0) && Info(m).flags / 8 == (if m.shared then 1 else 0)
  {
  }

  // ---------- one line ----------

  lemma {:induction false} SkipPrefix(p: string, s: string)
    ensures Skip(p + s, |p|) == s
  {
    if p == "" {
      assert p + s == s;
    } else {
      assert (p + s)[1..] == p[1..] + s;
      SkipPrefix(p[1..], s);
    }
  }

  lemma {:induction false} SkipTheSpaces(n: nat, s: string)
    ensures SkipSpaces(Spaces(n) + s) == SkipSpaces(s)
  {
    if n == 0 {
      assert Spaces(0) + s == s;
    } else {
      assert (Spaces(n) + s)[1..] == Spaces(n - 1) + s;
      SkipTheSpaces(n - 1, s);
    }
  }

  lemma {:induction false} SkipInName(name: string, t: string)
    requires Cur(t) != ' ' as int || SkipSpaces(name) != ""
    ensures SkipSpaces(name + t) == SkipSpaces(name) + t
  {
    if name == "" {
      assert name + t == t;
    } else {
      assert (name + t)[1..] == name[1..] + t;
      if Cur(name) == ' ' as int {
        SkipInName(name[1..], t);
      }
    }
  }

  /** The text without its leading blanks is the end of it. */
  lemma {:induction false} SkipIsSuffix(s: string)
    ensures SkipSpaces(s) == s[|s| - |SkipSpaces(s)|..]
  {
    if s != "" && Cur(s) == ' ' as int {
      SkipIsSuffix(s[1..]);
    }
  }

  lemma {:induction false} CutName(name: string, j: nat)
    requires j <= |SkipSpaces(name)|
    ensures var k := |name| - |SkipSpaces(name)| + j;
            && 0 <= k <= |name| && SkipSpaces(name[..k]) == SkipSpaces(name)[..j]
            && SkipSpaces(name)[j..] == name[k..]
  {
    if name != "" && Cur(name) == ' ' as int {
      CutName(name[1..], j);
      var k := |name| - |SkipSpaces(name)| + j;
      assert name[..k][1..] == name[1..][..k - 1];
    }
  }

  lemma NoBlank(s: string)
    requires Cur(s) != ' ' as int
    ensures SkipSpaces(s) == s
  {
  }

  lemma TakeOne(s: string, t: string, room: nat)
    requires room > 0 && s != "" && s[0] != '\n' && s[0] as int < 0xff && s[1..] == t
    ensures TakeName(s, room) == ([s[0]] + TakeName(t, room - 1).0, TakeName(t, room - 1).1)
  {
  }

  /** Where the parser takes a name to end. */
  predicate EndsName(t: string) {
    Cur(t) == NEWLINE || Cur(t) == -1
  }

  /** The buffer for a name is full, or the name has come to its end. */
  predicate NameStops(name: string, t: string, room: nat) {
    |name| == room || (|name| < room && EndsName(t))
  }

  lemma {:induction false} TakeTheName(name: string, t: string, room: nat)
    requires NameStops(name, t, room) && '\n' !in name && forall i :: 0 <= i < |name| ==> name[i] as int < 0xff
    ensures TakeName(name + t, room) == (name, t)
  {
    var s := name + t;
    if name == "" {
      assert s == t;
    } else {
      var u := name[1..] + t;
      assert s[0] == name[0] && s[1..] == u;
      TakeTheName(name[1..], t, room - 1);
      assert name[0] in name;
      TakeOne(s, u, room);
      assert [name[0]] + name[1..] == name;
    }
  }

  /** What the parser does after the inode field of a line. */
  lemma NameField(m: Mapping, t: string)
    requires Printable(m) && NameStops(Shown(m), t, NAME_BUF_SIZE)
    ensures var s := Spaces(m.pad) + (m.name + t);
            && !CharIsDec(Cur(s))
            && (if EndsName(s) then m.name == "" && s == t
                else TakeName(SkipSpaces(s), NAME_BUF_SIZE) == (Shown(m), t))
  {
    var tail := m.name + t;
    var s := Spaces(m.pad) + tail;
    SkipTheSpaces(m.pad, tail);
    ShownText(m);
    TakeTheName(Shown(m), t, NAME_BUF_SIZE);
    if m.pad == 0 {
      assert s == tail == t;
    } else {
      assert s[0] == ' ';
      hide SkipSpaces, TakeName, Spaces;
      SkipInName(m.name, t);
    }
  }

  lemma ShownText(m: Mapping)
    requires Printable(m)
    ensures '\n' !in Shown(m) && forall i :: 0 <= i < |Shown(m)| ==> Shown(m)[i] as int < 0xff
  {
    SkipIsSuffix(m.name);
    var b := |m.name| - |Shown(m)|;
    assert forall i :: 0 <= i < |Shown(m)| ==> Shown(m)[i] == m.name[b + i];
  }

  lemma PermissionFlags(m: Mapping, s: string)
    ensures ReadFlags((Perms(m) + Middle(m)) + s) == Info(m).flags
  {
    var t := (Perms(m) + Middle(m)) + s;
    var p := Perms(m);
    assert t[0] == p[0] && Adv(t)[0] == p[1] && Adv(Adv(t))[0] == p[2] && Adv(Adv(Adv(t)))[0] == p[3];
  }

  /** One turn of the loop, given what its parts read. */
  lemma ParseStep(s: string, start: U64, s1: string, end: U64, s3: string, s6: string, name: string, s7: string)
    requires CharIsHex(Cur(s)) && ReadHex(s, 0) == (start, s1)
    requires Cur(s1) == '-' as int && CharIsHex(Cur(Adv(s1))) && ReadHex(Adv(s1), 0) == (end, s3)
    requires Cur(Adv(s3)) >= 0 && ReadDec(Skip(Adv(s3), 20), 0).1 == s6 && |s6| < |Skip(Adv(s3), 20)|
    ensures EndsName(s6) ==> ParseLines(s) == ParseLines(s6)
    ensures !EndsName(s6) && TakeName(SkipSpaces(s6), NAME_BUF_SIZE) == (name, s7) ==>
              ParseLines(s) == if |name| != 7 then ParseLines(s7) else Found(StackInfo(start, end, ReadFlags(Adv(s3))))
  {
    hide Skip, ReadFlags, SkipSpaces, TakeName, SignedChar;
  }

  /** A record whose name ends at `t` is either reported, or skipped as a whole. */
  lemma ParseFields(m: Mapping, t: string)
    requires Printable(m) && NameStops(Shown(m), t, NAME_BUF_SIZE)
    ensures Fields(m, m.name + t) != "" && CharIsHex(Cur(Fields(m, m.name + t)))
    ensures ParseLines(Fields(m, m.name + t)) == if |Shown(m)| == 7 then Found(Info(m)) else ParseLines(t)
  {
    hide Padded, ParseLines, ReadHex, ReadDec, Skip, ReadFlags, TakeName, SkipSpaces, Spaces, SignedChar;
    var s6 := Spaces(m.pad) + (m.name + t);
    var s5 := Padded(m.inode, 10, 1) + s6;
    var s4 := AfterAddresses(m, m.name + t);
    var s3 := " " + s4;
    var s2 := Padded(m.end, 16, 8) + s3;
    var s1 := "-" + s2;
    FirstChars(s2, s4);
    HexRoundTrip(m.start, 8, s1);
    HexRoundTrip(m.end, 8, s3);
    assert Adv(s1) == s2 && Adv(s3) == s4;
    PermIsText(m, s5);
    assert |Perms(m) + Middle(m)| == 20;
    SkipPrefix(Perms(m) + Middle(m), s5);
    PermissionFlags(m, s5);
    NameField(m, t);
    DecRoundTrip(m.inode, s6);
    ParseStep(Fields(m, m.name + t), m.start, s1, m.end, s3, s6, Shown(m), t);
  }

  lemma FirstChars(s2: string, s4: string)
    ensures Cur("-" + s2) == '-' as int && !CharIsHex(Cur("-" + s2)) && !CharIsHex(Cur(" " + s4))
  {
  }

  lemma PermIsText(m: Mapping, s: string)
    ensures Cur((Perms(m) + Middle(m)) + s) >= 0
  {
    assert ((Perms(m) + Middle(m)) + s)[0] == Perms(m)[0];
  }

  /** A line is either the record that is reported, or skipped as a whole. */
  lemma ParseLine(m: Mapping, rest: string)
    requires WellFormed(m)
    ensures Line(m, rest) != "" && CharIsHex(Cur(Line(m, rest)))
    ensures ParseLines(Line(m, rest)) == if |Shown(m)| == 7 then Found(Info(m)) else ParseLines("\n" + rest)
  {
    ParseFields(m, "\n" + rest);
  }

  /** Of a name of 256 bytes or more the parser takes the first 256, and the others for the start of
    the next line. */
  lemma LongName(m: Mapping, rest: string)
    requires |Shown(m)| >= 256
    requires Printable(m.(name := m.name[..|m.name| - |Shown(m)| + 256]))
    ensures ParseLines(Line(m, rest)) == ParseLines(Shown(m)[256..] + ("\n" + rest))
  {
    var k := |m.name| - |Shown(m)| + 256;
    hide SkipSpaces, ParseLines, Padded, Fields;
    var cut, t := m.(name := m.name[..k]), Shown(m)[256..] + ("\n" + rest);
    CutName(m.name, 256);
    assert cut.name + t == m.name + ("\n" + rest);
    SameFields(m, cut, m.name + ("\n" + rest));
    ParseFields(cut, t);
  }

  lemma SameFields(m: Mapping, cut: Mapping, tail: string)
    requires cut == m.(name := cut.name)
    ensures Fields(cut, tail) == Fields(m, tail)
  {
    hide Padded, Spaces;
  }

  /** A byte 0xff in a name reads as the end of the file: the record is reported if seven bytes other
    than leading blanks precede it, and otherwise the parser gives up with 1, whatever follows. */
  lemma ByteFFEndsParse(m: Mapping, k: nat, rest: string)
    requires k < |m.name| && m.name[k] as int == 0xff && WellFormed(m.(name := m.name[..k]))
    ensures ParseLines(Line(m, rest)) == if |SkipSpaces(m.name[..k])| == 7 then Found(Info(m)) else NoStack
  {
    var cut, t := m.(name := m.name[..k]), m.name[k..] + ("\n" + rest);
    assert cut.name + t == m.name + ("\n" + rest);
    assert ParseLines(t) == NoStack;
    hide ParseLines;
    ParseFields(cut, t);
  }

  // ---------- a rendered file is a file ----------

  lemma BytesOfSum(a: string, b: string)
    requires Bytes(a) && Bytes(b)
    ensures Bytes(a + b)
  {
  }

  lemma BytesOfDigits(n: nat, base: nat, width: nat)
    requires 2 <= base <= 16
    ensures Bytes(Padded(n, base, width))
  {
    PaddedDigits(n, base, width);
  }

  lemma {:induction false} BytesOfSpaces(n: nat)
    ensures Bytes(Spaces(n))
  {
    if n > 0 {
      BytesOfSpaces(n - 1);
    }
  }

  lemma BytesOfLine(m: Mapping, rest: string)
    requires Printable(m) && Bytes(rest)
    ensures Bytes(Line(m, rest))
  {
    var name := m.name + ("\n" + rest);
    assert Bytes(m.name) && Bytes("\n" + rest) && Bytes(Perms(m)) && Bytes(" ") && Bytes("-");
    BytesOfSum(m.name, "\n" + rest);
    BytesOfDigits(m.start, 16, 8);
    BytesOfDigits(m.end, 16, 8);
    BytesOfDigits(m.inode, 10, 1);
    BytesOfSpaces(m.pad);
    BytesOfSum(" ", m.offset);
    BytesOfSum(" " + m.offset, " ");
    BytesOfSum(" " + m.offset + " ", m.device);
    BytesOfSum(" " + m.offset + " " + m.device, " ");
    hide Bytes, Padded, Spaces, Perms;
    BytesOfSum(Spaces(m.pad), name);
    BytesOfSum(Padded(m.inode, 10, 1), Spaces(m.pad) + name);
    BytesOfSum(Perms(m), Middle(m));
    BytesOfSum(Perms(m) + Middle(m), Padded(m.inode, 10, 1) + (Spaces(m.pad) + name));
    BytesOfSum(" ", AfterAddresses(m, name));
    BytesOfSum(Padded(m.end, 16, 8), " " + AfterAddresses(m, name));
    BytesOfSum("-", Padded(m.end, 16, 8) + (" " + AfterAddresses(m, name)));
    BytesOfSum(Padded(m.start, 16, 8), "-" + (Padded(m.end, 16, 8) + (" " + AfterAddresses(m, name))));
  }

  lemma {:induction false} BytesOfRender(ms: seq<Mapping>)
    requires forall i :: 0 <= i < |ms| ==> WellFormed(ms[i])
    ensures Bytes(Render(ms))
  {
    if ms != [] {
      BytesOfRender(ms[1..]);
      BytesOfLine(ms[0], Render(ms[1..]));
    }
  }

  // ---------- what is refused ----------

  /** A line must start with a digit of the first address. */
  lemma NoFirstAddress(s: string)
    requires s != "" && Cur(s) != -1 && Cur(s) != NEWLINE && !CharIsHex(Cur(s))
    ensures ParseLines(s) == Malformed
  {
  }

  /** A '-' must follow it. */
  lemma NoDash(n: U64, width: nat, t: string)
    requires width > 0 && !CharIsHex(Cur(t)) && Cur(t) != '-' as int
    ensures ParseLines(Padded(n, 16, width) + t) == Malformed
  {
    var s := Padded(n, 16, width) + t;
    HexRoundTrip(n, width, t);
    hide Padded, ReadHex;
    HexIsText(s);
  }

  /** Then a digit of the second address. */
  lemma NoSecondAddress(n: U64, width: nat, t: string)
    requires width > 0 && !CharIsHex(Cur(t))
    ensures ParseLines(Padded(n, 16, width) + ("-" + t)) == Malformed
  {
    var s := Padded(n, 16, width) + ("-" + t);
    assert Adv("-" + t) == t && Cur("-" + t) == '-' as int;
    HexRoundTrip(n, width, "-" + t);
    assert ReadHex(t, 0) == (0, t);
    hide Padded, ReadHex;
    HexIsText(s);
  }

  lemma HexIsText(s: string)
    requires CharIsHex(Cur(s))
    ensures s != "" && Cur(s) != NEWLINE && Cur(s) != -1
  {
  }

  /** And at last a digit of the inode, twenty characters behind the blank that follows the addresses. */
  lemma NoInode(n: U64, k: U64, c: char, t: string)
    requires !CharIsHex(Cur([c] + t)) && |t| >= 20 && Cur(t) >= 0 && !CharIsDec(Cur(t[20..]))
    ensures ParseLines(Padded(n, 16, 8) + ("-" + (Padded(k, 16, 8) + ([c] + t)))) == Malformed
  {
    var s3 := [c] + t;
    var s2 := Padded(k, 16, 8) + s3;
    var s1 := "-" + s2;
    assert Adv(s1) == s2 && Cur(s1) == '-' as int && Adv(s3) == t;
    NoDec(t[20..]);
    hide Padded, ReadHex, ReadDec, Skip, SignedChar, ReadFlags, SkipSpaces, TakeName;
    HexRoundTrip(n, 8, s1);
    HexRoundTrip(k, 8, s3);
    SkipPrefix(t[..20], t[20..]);
    assert t[..20] + t[20..] == t;
    HexIsText(Padded(n, 16, 8) + s1);
    HexIsText(s2);
    NoInodeStep(Padded(n, 16, 8) + s1, n, s1, k, s3);
  }

  lemma NoDec(s: string)
    requires !CharIsDec(Cur(s))
    ensures ReadDec(s, 0) == (0, s)
  {
  }

  lemma NoInodeStep(s: string, n: U64, s1: string, k: U64, s3: string)
    requires s != "" && Cur(s) != NEWLINE && Cur(s) != -1 && CharIsHex(Cur(s)) && ReadHex(s, 0) == (n, s1)
    requires Cur(s1) == '-' as int && Cur(Adv(s1)) >= 0 && CharIsHex(Cur(Adv(s1))) && ReadHex(Adv(s1), 0) == (k, s3)
    requires Cur(Adv(s3)) >= 0 && ReadDec(Skip(Adv(s3), 20), 0).1 == Skip(Adv(s3), 20)
    ensures ParseLines(s) == Malformed
  {
    hide Skip, ReadDec, SignedChar, ReadFlags, SkipSpaces, TakeName, Cur, CharIsHex, Adv;
  }

  /** A text that lacks the newline behind its last record gives 1 there, if that is not reported. */
  lemma LastLineOpen(m: Mapping)
    requires WellFormed(m)
    ensures ParseLines("") == NoStack
    ensures ParseLines(Fields(m, m.name)) == if |Shown(m)| == 7 then Found(Info(m)) else NoStack
  {
    assert m.name + "" == m.name;
    ParseFields(m, "");
  }

  // ---------- whole files ----------

  /** The first record whose name has seven characters. */
  function FirstSeven(ms: seq<Mapping>): Outcome {
    if ms == [] then Malformed
    else if |Shown(ms[0])| == 7 then Found(Info(ms[0]))
    else FirstSeven(ms[1..])
  }

  lemma {:induction false} ParseAfterNewline(ms: seq<Mapping>)
    requires forall i :: 0 <= i < |ms| ==> WellFormed(ms[i])
    ensures ParseLines("\n" + Render(ms)) == FirstSeven(ms)
  {
    var s := "\n" + Render(ms);
    assert Adv(s) == Render(ms);
    if ms == [] {
      assert ReadHex("", 0) == (0, "");
    } else {
      var rest := Render(ms[1..]);
      ParseLine(ms[0], rest);
      SameAfterNewline(s, Render(ms));
      if |Shown(ms[0])| != 7 {
        ParseAfterNewline(ms[1..]);
      }
    }
  }

  lemma SameAfterNewline(s: string, t: string)
    requires s != "" && s[0] == '\n' && s[1..] == t && t != "" && CharIsHex(Cur(t))
    ensures ParseLines(s) == ParseLines(t)
  {
  }

  /** Parsing the text of any list of mappings yields the first one with a name of seven characters,
    with exactly its addresses and flags. Without such a mapping the result is -1, because the
    last line's newline makes the loop expect another address; the return value 1 does not occur. */
  lemma ParseOfRender(ms: seq<Mapping>)
    requires forall i :: 0 <= i < |ms| ==> WellFormed(ms[i])
    ensures ParseMaps(Render(ms)) == FirstSeven(ms)
  {
    hide ParseLines, Line, WellFormed;
    if ms != [] {
      ParseLine(ms[0], Render(ms[1..]));
      if |Shown(ms[0])| != 7 {
        ParseAfterNewline(ms[1..]);
      }
    }
  }

  lemma {:induction false} FirstSevenIs(ms: seq<Mapping>, k: nat)
    requires k < |ms| && |Shown(ms[k])| == 7 && forall i :: 0 <= i < k ==> |Shown(ms[i])| != 7
    ensures FirstSeven(ms) == Found(Info(ms[k]))
    decreases k
  {
    if k > 0 {
      FirstSevenIs(ms[1..], k - 1);
    }
  }

  const STACK_NAME: string := "[stack]"

  /** The kernel lists mappings by ascending address. */
  ghost predicate Ascending(ms: seq<Mapping>) {
    forall i, j :: 0 <= i < j < |ms| ==> ms[i].start < ms[j].start
  }

  /** The parser reports the record named "[stack]" if and only if no record before it has a name of
    seven characters, leading blanks not counted. */
  lemma StackFoundIff(ms: seq<Mapping>, k: nat)
    requires (forall i :: 0 <= i < |ms| ==> WellFormed(ms[i])) && Ascending(ms)
    requires k < |ms| && ms[k].name == STACK_NAME
    ensures ParseMaps(Render(ms)).Found?
    ensures ParseMaps(Render(ms)) == Found(Info(ms[k])) <==> forall i :: 0 <= i < k ==> |Shown(ms[i])| != 7
  {
    ParseOfRender(ms);
    NoBlank(STACK_NAME);
    hide ParseMaps, Render, WellFormed, SkipSpaces;
    var f := FirstSevenIndex(ms, k);
    FirstSevenIs(ms, f);
    if f < k {
      assert ms[f].start < ms[k].start;
    }
  }

  lemma FirstSevenIndex(ms: seq<Mapping>, k: nat) returns (f: nat)
    requires k < |ms| && |Shown(ms[k])| == 7
    ensures f <= k && |Shown(ms[f])| == 7 && forall i :: 0 <= i < f ==> |Shown(ms[i])| != 7
  {
    f := 0;
    while |Shown(ms[f])| != 7
      invariant f <= k && forall i :: 0 <= i < f ==> |Shown(ms[i])| != 7
      decreases k - f
    {
      f := f + 1;
    }
  }

  /** A file where the parser reports something else than the stack. */
  lemma WrongMapping()
    ensures var lib := Mapping(0x1000, 0x2000, true, false, true, false, "00000000", "08:01", 42, 5, "/lib/ld");
            var stack := Mapping(0x3000, 0x4000, true, true, false, false, "00000000", "00:00", 0, 5, STACK_NAME);
            && ParseMaps(Render([lib, stack])) == Found(Info(lib)) != Found(Info(stack))
            && Info(lib) == StackInfo(0x1000, 0x2000, 5) && Info(stack) == StackInfo(0x3000, 0x4000, 3)
  {
    var lib := Mapping(0x1000, 0x2000, true, false, true, false, "00000000", "08:01", 42, 5, "/lib/ld");
    var stack := Mapping(0x3000, 0x4000, true, true, false, false, "00000000", "00:00", 0, 5, STACK_NAME);
    hide ParseMaps, Render, SkipSpaces;
    NoBlank(lib.name);
    NoBlank(stack.name);
    assert WellFormed(lib) && WellFormed(stack);
    hide WellFormed;
    ParseOfRender([lib, stack]);
    FirstSevenIs([lib, stack], 0);
  }
}
