/** One descriptor and its native counterpart: what each conversion makes of the other's result. */
module ResourceEntry {
  import opened Prelude
  import opened BitBuffer
  import opened ResourceVm
  import opened ResourceTable

  /** The header of a descriptor: a byte with name and size, or a byte with the name and two with the size. */
  function HeaderBits(k: Kind, size: nat): (h: Buffer)
    ensures |h| == 8 * HeaderSize(k)
  {
    if Large(k) then Enc(Name(k), 7) + [true] + Enc(size, 16) else Enc(size, 3) + Enc(Name(k), 4) + [false]
  }

  predicate IsDescriptor(k: Kind, size: nat, d: Buffer) {
    SizeFits(k, size) && |d| == 8 * (HeaderSize(k) + size) && d[..8 * HeaderSize(k)] == HeaderBits(k, size)
  }

  // ----- sizes -----

  /** extra_size_for_native_irq_or_dma. */
  function Extra(k: Kind, d: Buffer): nat
    requires |d| >= 8 * HeaderSize(k) + (if k.Irq? then 16 else if k.Dma? then 8 else 0)
  {
    if k.Irq? then |Positions(d[8..24], 0)| else if k.Dma? then |Positions(d[8..16], 0)| else 0
  }

  function Align8(n: nat): (r: nat)
    ensures n <= r < n + 8 && r % 8 == 0
  {
    (n + 7) / 8 * 8
  }

  /** native_size_for_aml_resource. */
  function NativeLength(k: Kind, d: Buffer): (n: nat)
    requires |d| >= 8 * HeaderSize(k) + (if k.Irq? then 16 else if k.Dma? then 8 else 0)
    ensures NATIVE_HEADER + Fields(k) + Extra(k, d) <= n < 64
  {
    Align8(NATIVE_HEADER + Fields(k) + Extra(k, d))
  }

  /** size_for_aml_irq and size_for_aml_start_dependent, without the header; others have one size. */
  function AmlSizeFor(k: Kind, n: Buffer, base: nat): (size: nat)
    requires base + 64 + 8 * Fields(k) <= |n|
    ensures SizeFits(k, size)
  {
    if k.Irq? then
      if ByteAt(n, base + 64, 0) != FULL && ByteAt(n, base + 64, 1) == EDGE && ByteAt(n, base + 64, 2) == 0 && ByteAt(n, base + 64, 3) == 0
      then 2 else 3
    else if k.StartDependent? then
      if ByteAt(n, base + 64, 0) != FULL && ByteAt(n, base + 64, 1) == ACCEPTABLE && ByteAt(n, base + 64, 2) == ACCEPTABLE then 0 else 1
    else AmlSize(k)
  }

  // ----- the conversions of one descriptor -----

  function EntryToNative(k: Kind, size: nat, d: Buffer, m: Buffer, base: nat): Option<Buffer>
    requires |d| >= 8 * HeaderSize(k) + (if k.Irq? then 16 else if k.Dma? then 8 else 0)
  {
    if base + 64 > |m| then None
    else ToNative(ToNativeProgram(k), 0, size, d, Put(m, base, Enc(NativeType(k), 32) + Enc(NativeLength(k, d), 32)), base + 64)
  }

  function EntryToAml(k: Kind, n: Buffer, base: nat, a: Buffer, o: nat): Option<Buffer>
    requires base + 64 + 8 * Fields(k) <= |n|
  {
    var size := AmlSizeFor(k, n, base);
    if o + 8 * HeaderSize(k) > |a| then None
    else ToAml(ToAmlProgram(k), 0, size, n, base + 64, Put(a, o, HeaderBits(k, size)), o)
  }

  // ----- the lists fit -----

  lemma TidyDma(d: Buffer)
    requires |d| == 24
    ensures Tidy(Moves(Dma), d, 8 * (4 + Extra(Dma, d)))
  {
  }

  lemma TidyIo(d: Buffer)
    requires |d| == 64
    ensures Tidy(Moves(Io), d, 64)
  {
  }

  lemma TidySmall(k: Kind, d: Buffer)
    requires k.EndDependent? || k.FixedIo? || k.FixedDma? || k.EndTag?
    requires |d| == 8 * (1 + AmlSize(k))
    ensures Tidy(Moves(k), d, 8 * Fields(k))
  {
  }

  lemma TidyLarge(k: Kind, d: Buffer)
    requires Large(k) && |d| == 8 * (3 + AmlSize(k))
    ensures Tidy(Moves(k), d, 8 * Fields(k))
  {
  }

  lemma TidyMoves(k: Kind, d: Buffer)
    requires !MayBeShorter(k) && |d| == 8 * (HeaderSize(k) + AmlSize(k))
    ensures Tidy(NativeList(k, AmlSize(k)), d, 8 * (Fields(k) + Extra(k, d)))
  {
    if k.Dma? {
      TidyDma(d);
    } else if k.Io? {
      TidyIo(d);
    } else if Large(k) {
      TidyLarge(k, d);
    } else {
      TidySmall(k, d);
    }
  }

  lemma TidyIrq(size: nat, d: Buffer)
    requires SizeFits(Irq, size) && |d| == 8 * (1 + size)
    ensures Tidy(NativeList(Irq, size), d, 8 * (6 + Extra(Irq, d)))
  {
  }

  lemma TidyStart(size: nat, d: Buffer)
    requires SizeFits(StartDependent, size) && |d| == 8 * (1 + size)
    ensures Tidy(NativeList(StartDependent, size), d, 8 * 3)
  {
  }

  lemma TidyNative(k: Kind, size: nat, d: Buffer)
    requires SizeFits(k, size) && |d| == 8 * (HeaderSize(k) + size)
    ensures Tidy(NativeList(k, size), d, 8 * (Fields(k) + Extra(k, d)))
  {
    if k.Irq? {
      TidyIrq(size, d);
    } else if k.StartDependent? {
      TidyStart(size, d);
    } else {
      TidyMoves(k, d);
    }
  }

  // ----- towards the native structure -----

  /** What a conversion leaves at `base`: type and length, every field in place, nothing else touched. */
  ghost predicate Native(list: seq<Insn>, kind: nat, len: nat, d: Buffer, m: Buffer, base: nat, r: Buffer) {
    && |r| == |m| && base + 8 * len <= |m| && Has(r, base, Enc(kind, 32)) && Has(r, base + 32, Enc(len, 32))
    && (forall i :: 0 <= i < |list| ==> Reads(list[i], d) && Holds(list[i], d, r, base + 64))
    && (forall x :: 0 <= x < |m| && !(base <= x < base + 8 * len) ==> r[x] == m[x])
    && (forall x :: base + 64 <= x < base + 8 * len && Untouched(list, d, x - base - 64) ==> r[x] == m[x])
  }

  lemma ListWritten(list: seq<Insn>, kind: nat, len: nat, d: Buffer, m: Buffer, base: nat, room: nat)
    requires Tidy(list, d, room) && 64 + room <= 8 * len && base + 8 * len <= |m|
    ensures var m1 := Put(m, base, Enc(kind, 32) + Enc(len, 32));
            && StepsNative(list, d, m1, base + 64).Some?
            && Native(list, kind, len, d, m, base, StepsNative(list, d, m1, base + 64).value)
  {
    var a, b := Enc(kind, 32), Enc(len, 32);
    var m1 := Put(m, base, a + b);
    StepsNativeHolds(list, d, m1, base + 64, room);
    var r := StepsNative(list, d, m1, base + 64).value;
    forall x | 0 <= x < |m| && !(base + 64 <= x < base + 8 * len) ensures r[x] == m1[x] { OutsideRoom(list, d, room, x - base - 64); }
    HeadKept(m, base, a, b, r);
  }

  lemma EntryWritten(k: Kind, size: nat, d: Buffer, m: Buffer, base: nat)
    requires IsDescriptor(k, size, d) && base + 8 * NativeLength(k, d) <= |m|
    ensures EntryToNative(k, size, d, m, base).Some?
    ensures Native(NativeList(k, size), NativeType(k), NativeLength(k, d), d, m, base, EntryToNative(k, size, d, m, base).value)
  {
    ProgramsRun(k, size);
    TidyNative(k, size, d);
    ListWritten(NativeList(k, size), NativeType(k), NativeLength(k, d), d, m, base, 8 * (Fields(k) + Extra(k, d)));
    ToNativeLinear(ToNativeProgram(k), 0, size, d, Put(m, base, Enc(NativeType(k), 32) + Enc(NativeLength(k, d), 32)), base + 64);
  }

  lemma OutsideRoom(list: seq<Insn>, d: Buffer, room: nat, y: int)
    requires Tidy(list, d, room) && !(0 <= y < room)
    ensures Untouched(list, d, y)
  {
    forall k | 0 <= k < |list| ensures !(Lo(list[k]) <= y < Hi(list[k], d)) { assert Proper(list[k], d, room); }
  }

  lemma HeadKept(m: Buffer, base: nat, a: Buffer, b: Buffer, r: Buffer)
    requires |a| == 32 && |b| == 32 && base + 64 <= |m| == |r|
    requires forall x :: base <= x < base + 64 ==> r[x] == Put(m, base, a + b)[x]
    ensures Has(r, base, a) && Has(r, base + 32, b)
  {
    assert r[base..base + 32] == a && r[base + 32..base + 64] == b;
  }

  // ----- the size comes back -----

  lemma SetBack(i: Insn, d: Buffer, r: Buffer, base: nat)
    requires i.SetTo? && i.value < 256 && Holds(i, d, r, base)
    ensures base + 8 * i.native + 8 <= |r| && ByteAt(r, base, i.native) == i.value
  {
    assert Patches(i, d)[0] == Patch(8 * i.native, Enc(i.value, 8));
    assert Has(r, base + 8 * i.native, Enc(i.value, 8));
    CountBack(r, base, i.native, i.value);
  }

  lemma {:induction false} NumOfBlank(b: Buffer)
    requires forall x :: 0 <= x < |b| ==> !b[x]
    ensures Num(b) == 0
  {
    if b != [] { NumOfBlank(b[1..]); }
  }

  lemma BlankByte(r: Buffer, at: nat, k: nat)
    requires at + 8 * k + 8 <= |r| && forall x :: at + 8 * k <= x < at + 8 * k + 8 ==> !r[x]
    ensures ByteAt(r, at, k) == 0
  {
    NumOfBlank(r[at + 8 * k..at + 8 * k + 8]);
  }

  lemma IrqSizeBack(size: nat, d: Buffer, m: Buffer, base: nat, r: Buffer)
    requires IsDescriptor(Irq, size, d) && Native(NativeList(Irq, size), NativeType(Irq), NativeLength(Irq, d), d, m, base, r)
    requires Blank(m, base, base + 8 * NativeLength(Irq, d))
    ensures AmlSizeFor(Irq, r, base) == size
  {
    var list := NativeList(Irq, size);
    if size == 3 {
      assert list[1] == SetTo(0, 0, FULL);
      SetBack(list[1], d, r, base + 64);
    } else {
      assert list[1] == SetTo(0, 0, ONE_LESS) && list[2] == SetTo(0, 1, EDGE);
      SetBack(list[1], d, r, base + 64);
      SetBack(list[2], d, r, base + 64);
      forall x | base + 80 <= x < base + 96 ensures !r[x] { assert Untouched(list, d, x - base - 64); }
      BlankByte(r, base + 64, 2);
      BlankByte(r, base + 64, 3);
    }
  }

  lemma StartSizeBack(size: nat, d: Buffer, m: Buffer, base: nat, r: Buffer)
    requires IsDescriptor(StartDependent, size, d)
    requires Native(NativeList(StartDependent, size), NativeType(StartDependent), NativeLength(StartDependent, d), d, m, base, r)
    ensures AmlSizeFor(StartDependent, r, base) == size
    ensures size == 0 ==> ByteAt(r, base + 64, 2) == ACCEPTABLE
  {
    var list := NativeList(StartDependent, size);
    if size == 1 {
      assert list[0] == SetTo(0, 0, FULL);
      SetBack(list[0], d, r, base + 64);
    } else {
      SetBack(START_SHORT[0], d, r, base + 64);
      SetBack(START_SHORT[1], d, r, base + 64);
      SetBack(START_SHORT[2], d, r, base + 64);
    }
  }

  /** A descriptor gets the size back that it came with. */
  lemma SizeBack(k: Kind, size: nat, d: Buffer, m: Buffer, base: nat, r: Buffer)
    requires IsDescriptor(k, size, d) && Native(NativeList(k, size), NativeType(k), NativeLength(k, d), d, m, base, r)
    requires Blank(m, base, base + 8 * NativeLength(k, d))
    ensures AmlSizeFor(k, r, base) == size
  {
    if k.Irq? {
      IrqSizeBack(size, d, m, base, r);
    } else if k.StartDependent? {
      StartSizeBack(size, d, m, base, r);
    }
  }

  // ----- back to AML -----

  /** A descriptor without the bits that no instruction carries. */
  function Cleared(list: seq<Insn>, header: nat, d: Buffer): (c: Buffer)
    ensures |c| == |d|
  {
    seq(|d|, x requires 0 <= x < |d| => if x < 8 * header then d[x] else Carried(list, x) && d[x])
  }

  lemma ListBack(list: seq<Insn>, header: nat, d: Buffer, n: Buffer, base: nat, a: Buffer, o: nat)
    requires AllHold(list, d, n, base) && 1 <= header && 8 * header <= |d| && o + |d| <= |a| && Blank(a, o + 8, o + |d|)
    requires forall x: nat :: Carried(list, x) ==> 8 * header <= x
    ensures var s := StepsAml(list, n, base, Put(a, o, d[..8 * header]), o);
            && s.Some? && |s.value| == |a| && Has(s.value, o, Cleared(list, header, d))
            && forall y :: 0 <= y < |a| && !(o <= y < o + |d|) ==> s.value[y] == a[y]
  {
    var a1 := Put(a, o, d[..8 * header]);
    forall x | 0 <= x < |d| && Carried(list, x) ensures !a1[o + x] { assert !a[o + x]; }
    StepsBack(list, d, n, base, a1, o);
    var r := StepsAml(list, n, base, a1, o).value;
    var c, got := Cleared(list, header, d), r[o..o + |d|];
    forall x | 0 <= x < |d| ensures got[x] == c[x] {
      assert r[o + x] == if Carried(list, x) then d[x] else a1[o + x];
    }
  }

  predicate ShortStart(k: Kind, size: nat) { k.StartDependent? && size == 0 }

  lemma AmlListHolds(k: Kind, size: nat, d: Buffer, r: Buffer, base: nat)
    requires SizeFits(k, size) && !ShortStart(k, size)
    requires forall i :: 0 <= i < |NativeList(k, size)| ==> Reads(NativeList(k, size)[i], d) && Holds(NativeList(k, size)[i], d, r, base)
    ensures AllHold(AmlList(k, size), d, r, base)
  {
    var from, to := NativeList(k, size), AmlList(k, size);
    forall i | 0 <= i < |to| ensures IsMove(to[i]) && Reads(to[i], d) && Holds(to[i], d, r, base) {
      var j := if (k.Irq? && size == 3 && i > 0) || k.StartDependent? then i + 1 else i;
      assert j < |from| && from[j] == to[i];
      assert Reads(from[j], d) && Holds(from[j], d, r, base);
    }
  }

  lemma CarriedAfterHeader(k: Kind, size: nat, x: nat)
    requires SizeFits(k, size) && Carried(AmlList(k, size), x)
    ensures 8 * HeaderSize(k) <= x
  {
  }

  /** Back at `o` is the descriptor without its uncarried bits; at most one byte behind it is disturbed. */
  ghost predicate Back(k: Kind, size: nat, d: Buffer, a: Buffer, o: nat, r: Buffer)
    requires SizeFits(k, size)
  {
    && |r| == |a| && o + |d| <= |a| && Has(r, o, Cleared(AmlList(k, size), HeaderSize(k), d))
    && forall y :: 0 <= y < |a| && !(o <= y < o + |d| + 8) ==> r[y] == a[y]
  }

  lemma EntryBackPlain(k: Kind, size: nat, d: Buffer, m: Buffer, base: nat, n: Buffer, a: Buffer, o: nat)
    requires IsDescriptor(k, size, d) && !ShortStart(k, size)
    requires Native(NativeList(k, size), NativeType(k), NativeLength(k, d), d, m, base, n)
    requires Blank(m, base, base + 8 * NativeLength(k, d)) && o + |d| <= |a| && Blank(a, o + 8, o + |d|)
    ensures EntryToAml(k, n, base, a, o).Some? && Back(k, size, d, a, o, EntryToAml(k, n, base, a, o).value)
  {
    SizeBack(k, size, d, m, base, n);
    ProgramsRun(k, size);
    AmlListHolds(k, size, d, n, base + 64);
    forall x: nat | Carried(AmlList(k, size), x) ensures 8 * HeaderSize(k) <= x { CarriedAfterHeader(k, size, x); }
    ListBack(AmlList(k, size), HeaderSize(k), d, n, base + 64, a, o);
    ToAmlLinear(ToAmlProgram(k), 0, size, n, base + 64, Put(a, o, HeaderBits(k, size)), o);
  }

  /** The flag that the short form does not skip is written into the byte behind the descriptor. */
  lemma EntryBackShort(d: Buffer, m: Buffer, base: nat, n: Buffer, a: Buffer, o: nat)
    requires IsDescriptor(StartDependent, 0, d)
    requires Native(NativeList(StartDependent, 0), NativeType(StartDependent), NativeLength(StartDependent, d), d, m, base, n)
    requires Blank(m, base, base + 8 * NativeLength(StartDependent, d)) && o + 16 <= |a|
    ensures EntryToAml(StartDependent, n, base, a, o).Some?
    ensures Back(StartDependent, 0, d, a, o, EntryToAml(StartDependent, n, base, a, o).value)
  {
    SizeBack(StartDependent, 0, d, m, base, n);
    ProgramsRun(StartDependent, 0);
    var a1, list := Put(a, o, HeaderBits(StartDependent, 0)), AmlList(StartDependent, 0);
    ToAmlLinear(ToAmlProgram(StartDependent), 0, 0, n, base + 64, a1, o);
    StrayFlag(n, base + 64, a1, o);
    assert StepsAml(list, n, base + 64, a1, o).value[o..o + 8] == d && Cleared(list, 1, d) == d;
  }

  /** That flag lands in the second byte and nowhere else. */
  lemma StrayFlag(n: Buffer, base: nat, a: Buffer, o: nat)
    requires base + 24 <= |n| && o + 16 <= |a|
    ensures var s := StepsAml(AmlList(StartDependent, 0), n, base, a, o);
            && s.Some? && |s.value| == |a| && s.value[o..o + 8] == a[o..o + 8]
            && forall y :: 0 <= y < |a| && !(o + 8 <= y < o + 16) ==> s.value[y] == a[y]
  {
    var i, list := START_FLAGS[1], AmlList(StartDependent, 0);
    assert list == [i] && list[1..] == [];
    assert StepsAml(list, n, base, a, o) == StepAml(i, n, base, a, o);
  }

  /** do_native_resource_to_aml on what do_aml_resource_to_native made of a descriptor. */
  lemma EntryBack(k: Kind, size: nat, d: Buffer, m: Buffer, base: nat, n: Buffer, a: Buffer, o: nat)
    requires IsDescriptor(k, size, d)
    requires Native(NativeList(k, size), NativeType(k), NativeLength(k, d), d, m, base, n)
    requires Blank(m, base, base + 8 * NativeLength(k, d)) && Blank(a, o + 8, o + |d|)
    requires o + |d| <= |a| && (k.StartDependent? ==> o + |d| + 8 <= |a|)
    ensures EntryToAml(k, n, base, a, o).Some? && Back(k, size, d, a, o, EntryToAml(k, n, base, a, o).value)
  {
    if ShortStart(k, size) {
      EntryBackShort(d, m, base, n, a, o);
    } else {
      EntryBackPlain(k, size, d, m, base, n, a, o);
    }
  }
}
