/**
  The initial user stack of execve (process.c, include/garn/arch/x86_64.h): strings, then the
  pointer table of section 3.4.1 of the System V x86-64 psABI, pushed downwards.
 */
module ExecStack {
  import opened Prelude

  /** A C string without its terminator. */
  type CString = s: seq<Byte> | forall i :: 0 <= i < |s| ==> s[i] != 0

  // ----- reading memory back -----

  function Little(s: seq<Byte>): (v: nat) { if s == [] then 0 else s[0] as nat + 256 * Little(s[1..]) }

  function Word(mem: seq<Byte>, a: nat): nat
    requires a + 8 <= |mem|
  {
    Little(mem[a..a + 8])
  }

  /** The string at an address. */
  function ReadString(mem: seq<Byte>, a: nat): seq<Byte>
    requires a <= |mem|
    decreases |mem| - a
  {
    if a == |mem| || mem[a] == 0 then [] else [mem[a]] + ReadString(mem, a + 1)
  }

  /** The strings of a null-terminated table of pointers. */
  function ReadVector(mem: seq<Byte>, a: nat): seq<seq<Byte>>
    requires a <= |mem|
    decreases |mem| - a
  {
    if a + 8 > |mem| || Word(mem, a) == 0 || Word(mem, a) > |mem| then []
    else [ReadString(mem, Word(mem, a))] + ReadVector(mem, a + 8)
  }

  // ----- words -----

  function Bytes(v: nat, n: nat): (s: seq<Byte>)
    ensures |s| == n
  {
    if n == 0 then [] else [v % 256] + Bytes(v / 256, n - 1)
  }

  function Power(n: nat): nat { if n == 0 then 1 else 256 * Power(n - 1) }

  lemma {:induction false} LittleOfBytes(v: nat, n: nat)
    requires v < Power(n)
    ensures Little(Bytes(v, n)) == v
  {
    if n > 0 {
      LittleOfBytes(v / 256, n - 1);
      assert Bytes(v, n)[1..] == Bytes(v / 256, n - 1);
    }
  }

  lemma Power8()
    ensures Power(8) == U64
  {
    assert Power(4) == 0x1_0000_0000;
    assert Power(6) == 256 * (256 * Power(4)) && Power(8) == 256 * (256 * Power(6));
  }

  ghost predicate EntryAt(mem: seq<Byte>, a: nat, ws: seq<nat>, j: nat)
    requires a + 8 * |ws| <= |mem| && j < |ws|
  {
    Word(mem, a + 8 * j) == ws[j]
  }

  ghost predicate WordsAt(mem: seq<Byte>, a: nat, ws: seq<nat>) {
    a + 8 * |ws| <= |mem| && forall j {:trigger EntryAt(mem, a, ws, j)} :: 0 <= j < |ws| ==> EntryAt(mem, a, ws, j)
  }

  ghost predicate StringAt(mem: seq<Byte>, a: nat, s: seq<Byte>) {
    a + |s| < |mem| && mem[a..a + |s|] == s && mem[a + |s|] == 0
  }

  /** Every string of `strs` lies where its pointer says, at `low` or above. */
  ghost predicate StringsAt(mem: seq<Byte>, low: nat, ptrs: seq<nat>, strs: seq<CString>) {
    |ptrs| == |strs| && forall i :: 0 <= i < |ptrs| ==> low <= ptrs[i] && StringAt(mem, ptrs[i], strs[i])
  }

  lemma {:induction false} ReadStringAt(mem: seq<Byte>, a: nat, s: CString)
    requires StringAt(mem, a, s)
    ensures ReadString(mem, a) == s
    decreases |s|
  {
    if s != [] {
      assert mem[a] == mem[a..a + |s|][0];
      assert mem[a + 1..a + 1 + |s[1..]|] == mem[a..a + |s|][1..];
      ReadStringAt(mem, a + 1, s[1..]);
    }
  }

  lemma {:induction false} ReadVectorAt(mem: seq<Byte>, a: nat, ptrs: seq<nat>, strs: seq<CString>)
    requires StringsAt(mem, 1, ptrs, strs) && WordsAt(mem, a, ptrs + [0])
    ensures ReadVector(mem, a) == strs
    decreases |ptrs|
  {
    var ws := ptrs + [0];
    assert EntryAt(mem, a, ws, 0);
    if ptrs != [] {
      ReadStringAt(mem, ptrs[0], strs[0]);
      var b, rest := a + 8, ptrs[1..] + [0];
      forall j | 0 <= j < |rest| ensures EntryAt(mem, b, rest, j) {
        assert EntryAt(mem, a, ws, j + 1);
      }
      ReadVectorAt(mem, a + 8, ptrs[1..], strs[1..]);
    }
  }

  /** What execve promises the new program: its argument count, arguments and environment. */
  ghost predicate Decodes(mem: seq<Byte>, sp: nat, argv: seq<CString>, envp: seq<CString>) {
    && sp % 16 == 0 && sp + 8 * (|argv| + |envp| + 4) <= |mem|
    && Word(mem, sp) == |argv|
    && ReadVector(mem, sp + 8) == argv && Word(mem, sp + 8 * (|argv| + 1)) == 0
    && ReadVector(mem, sp + 8 * (|argv| + 2)) == envp && Word(mem, sp + 8 * (|argv| + |envp| + 2)) == 0
    && Word(mem, sp + 8 * (|argv| + |envp| + 3)) == 0
  }

  function Table(argv: seq<nat>, envp: seq<nat>): seq<nat> { [|argv|] + argv + [0] + envp + [0] + [0] }

  lemma TableDecodes(mem: seq<Byte>, sp: nat, argp: seq<nat>, envq: seq<nat>, argv: seq<CString>, envp: seq<CString>)
    requires sp % 16 == 0 && WordsAt(mem, sp, Table(argp, envq))
    requires StringsAt(mem, 1, argp, argv) && StringsAt(mem, 1, envq, envp)
    ensures Decodes(mem, sp, argv, envp)
  {
    TableWords(mem, sp, argp, envq);
    TableVectors(mem, sp, argp, envq, argv, envp);
  }

  lemma TableWords(mem: seq<Byte>, sp: nat, argp: seq<nat>, envq: seq<nat>)
    requires WordsAt(mem, sp, Table(argp, envq))
    ensures sp + 8 * (|argp| + |envq| + 4) <= |mem|
    ensures Word(mem, sp) == |argp| && Word(mem, sp + 8 * (|argp| + 1)) == 0
    ensures Word(mem, sp + 8 * (|argp| + |envq| + 2)) == 0 && Word(mem, sp + 8 * (|argp| + |envq| + 3)) == 0
  {
    var ws := Table(argp, envq);
    TableParts(argp, envq);
    WordAt(mem, sp, ws, 0);
    WordAt(mem, sp, ws, |argp| + 1);
    WordAt(mem, sp, ws, |argp| + |envq| + 2);
    WordAt(mem, sp, ws, |argp| + |envq| + 3);
  }

  lemma TableVectors(mem: seq<Byte>, sp: nat, argp: seq<nat>, envq: seq<nat>, argv: seq<CString>, envp: seq<CString>)
    requires WordsAt(mem, sp, Table(argp, envq)) && StringsAt(mem, 1, argp, argv) && StringsAt(mem, 1, envq, envp)
    ensures sp + 8 * (|argp| + |envq| + 4) <= |mem|
    ensures ReadVector(mem, sp + 8) == argv && ReadVector(mem, sp + 8 * (|argp| + 2)) == envp
  {
    TableParts(argp, envq);
    VectorAt(mem, sp, Table(argp, envq), 1, argp, argv);
    VectorAt(mem, sp, Table(argp, envq), |argp| + 2, envq, envp);
  }

  lemma VectorAt(mem: seq<Byte>, sp: nat, ws: seq<nat>, k: nat, ptrs: seq<nat>, strs: seq<CString>)
    requires WordsAt(mem, sp, ws) && k + |ptrs| < |ws| && ws[k..k + |ptrs| + 1] == ptrs + [0] && StringsAt(mem, 1, ptrs, strs)
    ensures ReadVector(mem, sp + 8 * k) == strs
  {
    TablePart(mem, sp, ws, k, ptrs + [0]);
    ReadVectorAt(mem, sp + 8 * k, ptrs, strs);
  }

  lemma WordAt(mem: seq<Byte>, sp: nat, ws: seq<nat>, k: nat)
    requires WordsAt(mem, sp, ws) && k < |ws|
    ensures Word(mem, sp + 8 * k) == ws[k]
  {
    assert EntryAt(mem, sp, ws, k);
  }

  lemma TableParts(argp: seq<nat>, envq: seq<nat>)
    ensures var ws, n, m := Table(argp, envq), |argp|, |envq|;
            && |ws| == n + m + 4 && ws[0] == n && ws[n + 1] == 0 && ws[n + m + 2] == 0 && ws[n + m + 3] == 0
            && ws[1..n + 2] == argp + [0] && ws[n + 2..n + m + 3] == envq + [0]
  {
  }

  lemma TablePart(mem: seq<Byte>, sp: nat, ws: seq<nat>, k: nat, part: seq<nat>)
    requires WordsAt(mem, sp, ws) && k + |part| <= |ws| && ws[k..k + |part|] == part
    ensures WordsAt(mem, sp + 8 * k, part)
  {
    var a := sp + 8 * k;
    forall j | 0 <= j < |part| ensures EntryAt(mem, a, part, j) {
      assert EntryAt(mem, sp, ws, k + j);
      assert ws[k + j] == ws[k..k + |part|][j];
    }
  }

  /** Bytes at and above `low` are the same. */
  ghost predicate SameAbove(m1: seq<Byte>, m2: seq<Byte>, low: nat) {
    |m1| == |m2| && forall k :: low <= k < |m1| ==> m1[k] == m2[k]
  }

  lemma StringsStay(m1: seq<Byte>, m2: seq<Byte>, low: nat, ptrs: seq<nat>, strs: seq<CString>)
    requires SameAbove(m1, m2, low) && StringsAt(m1, low, ptrs, strs)
    ensures StringsAt(m2, low, ptrs, strs)
  {
    forall i | 0 <= i < |ptrs| ensures StringAt(m2, ptrs[i], strs[i]) {
      assert m2[ptrs[i]..ptrs[i] + |strs[i]|] == m1[ptrs[i]..ptrs[i] + |strs[i]|];
    }
  }

  lemma WordsGrow(m1: seq<Byte>, m2: seq<Byte>, a: nat, v: nat, ws: seq<nat>)
    requires SameAbove(m1, m2, a + 8) && WordsAt(m1, a + 8, ws) && a + 8 <= |m2| && Word(m2, a) == v
    ensures WordsAt(m2, a, [v] + ws)
  {
    forall j | 0 <= j < |[v] + ws| ensures EntryAt(m2, a, [v] + ws, j) {
      if j > 0 {
        assert EntryAt(m1, a + 8, ws, j - 1);
        assert m2[a + 8 * j..a + 8 * j + 8] == m1[a + 8 * j..a + 8 * j + 8];
      }
    }
  }

  /** What the strings take up, terminators included. */
  function Room(strs: seq<CString>): nat { if strs == [] then 0 else |strs[0]| + 1 + Room(strs[1..]) }

  lemma {:induction false} RoomSplit(strs: seq<CString>, i: nat)
    requires i < |strs|
    ensures Room(strs[..i + 1]) == Room(strs[..i]) + |strs[i]| + 1
    ensures Room(strs[..i + 1]) <= Room(strs) && strs[..|strs|] == strs
  {
    if i == 0 {
      assert strs[..1] == [strs[0]] && strs[..1][1..] == [] && strs[..0] == [];
    } else {
      assert strs[..i + 1][1..] == strs[1..][..i] && strs[..i][1..] == strs[1..][..i - 1];
      RoomSplit(strs[1..], i - 1);
    }
  }

  // ----- pushing -----

  /** Memory whose stack grows down from `sp`; the pushes so far form `table`. */
  class Stack {
    const mem: array<Byte>
    var sp: nat
    ghost var table: seq<nat>

    ghost predicate Valid()
      reads this
    {
      sp <= mem.Length < U64
    }

    /** The stack is aligned for words and begins with those of the table. */
    ghost predicate Tabled()
      reads this, mem
    {
      Valid() && sp % 8 == 0 && WordsAt(mem[..], sp, table)
    }

    constructor (mem: array<Byte>, sp: nat)
      requires sp <= mem.Length < U64
      ensures Valid() && this.mem == mem && this.sp == sp
    {
      this.mem, this.sp, table := mem, sp, [];
    }

    method PushByte(x: Byte)
      requires Valid() && sp > 0
      modifies this`sp, mem
      ensures Valid() && sp == old(sp) - 1 && mem[sp] == x && forall k :: 0 <= k < mem.Length && k != sp ==> mem[k] == old(mem[k])
    {
      sp := sp - 1;
      mem[sp] := x;
    }

    /** X86_64_PUSH of a 64-bit value, which aligns the stack pointer first. */
    method PushWord(v: nat)
      requires Valid() && sp >= 8 && v < U64
      modifies this`sp, mem
      ensures Valid() && sp == (old(sp) - 8) / 8 * 8 && Word(mem[..], sp) == v
      ensures forall k :: 0 <= k < mem.Length && !(sp <= k < sp + 8) ==> mem[k] == old(mem[k])
    {
      sp := sp - 8;
      while sp % 8 != 0
        invariant 0 <= sp <= old(sp) - 8 && sp / 8 * 8 == (old(sp) - 8) / 8 * 8
        modifies this`sp
      {
        sp := sp - 1;
      }
      var bytes := Bytes(v, 8);
      forall k | sp <= k < sp + 8 { mem[k] := bytes[k - sp]; }
      assert mem[..][sp..sp + 8] == bytes;
      Power8();
      LittleOfBytes(v, 8);
    }

    /** X86_64_PUSHSTR: the terminator first, then the characters from the last to the first. */
    method PushString(s: CString)
      requires Valid() && sp > |s|
      modifies this`sp, mem
      ensures Valid() && sp == old(sp) - |s| - 1 && StringAt(mem[..], sp, s)
      ensures forall k :: 0 <= k < mem.Length && !(sp <= k < old(sp)) ==> mem[k] == old(mem[k])
    {
      PushByte(0);
      var l := |s|;
      while l > 0
        invariant 0 <= l <= |s| && Valid() && sp == old(sp) - 1 - (|s| - l)
        invariant mem[old(sp) - 1] == 0 && forall k :: l <= k < |s| ==> mem[sp + k - l] == s[k]
        invariant forall k :: 0 <= k < mem.Length && !(sp <= k < old(sp)) ==> mem[k] == old(mem[k])
      {
        l := l - 1;
        PushByte(s[l]);
      }
    }
  
    /** The string loops of execve: pushes every string and returns where each one lies. */
    method PushStrings(strs: seq<CString>) returns (ptrs: seq<nat>)
      requires Valid() && sp >= Room(strs)
      modifies this`sp, mem
      ensures Valid() && sp == old(sp) - Room(strs) && StringsAt(mem[..], sp, ptrs, strs)
      ensures forall k :: 0 <= k < mem.Length && !(sp <= k < old(sp)) ==> mem[k] == old(mem[k])
    {
      ptrs := [];
      var i := 0;
      while i < |strs|
        invariant i <= |strs| && |ptrs| == i && Valid() && sp == old(sp) - Room(strs[..i])
        invariant StringsAt(mem[..], sp, ptrs, strs[..i])
        invariant forall k :: 0 <= k < mem.Length && !(sp <= k < old(sp)) ==> mem[k] == old(mem[k])
      {
        RoomSplit(strs, i);
        ghost var before, low := mem[..], sp;
        PushString(strs[i]);
        StringsStay(before, mem[..], low, ptrs, strs[..i]);
        ptrs := ptrs + [sp];
        i := i + 1;
      }
      assert strs[..i] == strs;
    }

    /** A push onto an aligned table of words. */
    method PushEntry(v: nat)
      requires Tabled() && sp >= 8 && v < U64
      modifies this, mem
      ensures Tabled() && sp == old(sp) - 8 && table == [v] + old(table)
      ensures forall k :: old(sp) <= k < mem.Length ==> mem[k] == old(mem[k])
    {
      ghost var before := mem[..];
      PushWord(v);
      WordsGrow(before, mem[..], sp, v, table);
      table := [v] + table;
    }

    /** The pointer loops of execve, from the last pointer to the first. */
    method PushPointers(ptrs: seq<nat>)
      requires Tabled() && sp >= 8 * |ptrs| && forall i :: 0 <= i < |ptrs| ==> ptrs[i] < U64
      modifies this, mem
      ensures Tabled() && sp == old(sp) - 8 * |ptrs| && table == ptrs + old(table)
      ensures forall k :: old(sp) <= k < mem.Length ==> mem[k] == old(mem[k])
    {
      var i := |ptrs|;
      while i > 0
        invariant 0 <= i <= |ptrs| && Tabled() && sp == old(sp) - 8 * (|ptrs| - i) && table == ptrs[i..] + old(table)
        invariant forall k :: old(sp) <= k < mem.Length ==> mem[k] == old(mem[k])
      {
        i := i - 1;
        PushEntry(ptrs[i]);
        assert [ptrs[i]] + ptrs[i + 1..] == ptrs[i..];
      }
    }

    /** The table of section 3.4.1: argument count, arguments, null, environment, null, null vector. */
    method PushTable(argp: seq<nat>, envq: seq<nat>)
      requires Valid() && sp >= 8 * (|argp| + |envq| + 4) && sp % 8 == 0
      requires (forall i :: 0 <= i < |argp| ==> argp[i] < U64) && (forall i :: 0 <= i < |envq| ==> envq[i] < U64)
      modifies this, mem
      ensures Tabled() && sp == old(sp) - 8 * (|argp| + |envq| + 4) && table == Table(argp, envq)
      ensures forall k :: old(sp) <= k < mem.Length ==> mem[k] == old(mem[k])
    {
      table := [];
      PushEntry(0);
      PushEntry(0);
      PushPointers(envq);
      PushEntry(0);
      PushPointers(argp);
      PushEntry(|argp|);
    }

    static lemma RoundDown(a: nat)
      ensures (a - a % 16) % 16 == 0
    {
    }

    static lemma TableFits(a: nat, entries: nat)
      requires a % 16 == 0
      ensures 8 * entries % 16 == 0 || 8 * entries % 16 == 8
      ensures (a - 8 * entries % 16 - 8 * entries) % 16 == 0
    {
      var q, b := entries / 2, entries % 2;
      assert 8 * entries == 16 * q + 8 * b;
      Even(q, 8 * b);
      assert 8 * entries % 16 == 8 * b;
      Even(-q - b, a);
      assert a - 8 * b - 8 * entries == 16 * (-q - b) + a;
    }

    static lemma Eighth(a: int, d: int)
      requires a % 16 == 0 && (d == 0 || d == 8)
      ensures (a - d) % 8 == 0
    {
    }

    static lemma Even(q: int, x: int)
      ensures (16 * q + x) % 16 == x % 16
    {
    }

    /** Rounds the stack pointer down, then makes room so that the table ends on a multiple of 16. */
    method Align(entries: nat)
      requires Valid() && sp >= 24
      modifies this`sp
      ensures Valid() && sp % 8 == 0 && old(sp) - 24 < sp <= old(sp) && (sp - 8 * entries) % 16 == 0
    {
      RoundDown(sp);
      if sp % 16 != 0 {
        sp := sp - sp % 16;
      }
      var size := 8 * entries;
      TableFits(sp, entries);
      Eighth(sp, size % 16);
      if size % 16 != 0 {
        sp := sp - size % 16;
      }
    }

    /**
      The stack that execve builds decodes to the same arguments and environment, and what lay
      above the stack pointer is untouched.
     */
    method Build(argv: seq<CString>, envp: seq<CString>)
      requires Valid() && sp >= Room(argv) + Room(envp) + 8 * (|argv| + |envp| + 4) + 24
      modifies this, mem
      ensures Valid() && Decodes(mem[..], sp, argv, envp)
      ensures forall k :: old(sp) <= k < mem.Length ==> mem[k] == old(mem[k])
    {
      var argp := PushStrings(argv);
      ghost var before, low := mem[..], sp;
      var envq := PushStrings(envp);
      StringsStay(before, mem[..], low, argp, argv);
      before, low := mem[..], sp;
      Align(|argp| + |envq| + 4);
      PushTable(argp, envq);
      assert SameAbove(before, mem[..], low);
      StringsStay(before, mem[..], low, argp, argv);
      StringsStay(before, mem[..], low, envq, envp);
      TableDecodes(mem[..], sp, argp, envq, argv, envp);
    }
  }
}
