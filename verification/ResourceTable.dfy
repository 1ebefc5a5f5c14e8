/**
  The resource kinds whose conversion is modelled: their sizes in AML and in memory, and the
  conversion programs of resources.c. Native offsets follow the x86-64 layout of
  include/uacpi/resources.h.
 */
module ResourceTable {
  import opened Prelude
  import opened BitBuffer
  import opened ResourceVm

  datatype Kind =
    | Irq | Dma | StartDependent | EndDependent | Io | FixedIo | FixedDma | EndTag
    | Memory24 | GenericRegister | Memory32 | FixedMemory32

  predicate Large(k: Kind) { k.Memory24? || k.GenericRegister? || k.Memory32? || k.FixedMemory32? }

  function HeaderSize(k: Kind): nat { if Large(k) then 3 else 1 }

  function Name(k: Kind): nat {
    match k
    case Irq => 0x04 case Dma => 0x05 case StartDependent => 0x06 case EndDependent => 0x07
    case Io => 0x08 case FixedIo => 0x09 case FixedDma => 0x0A case EndTag => 0x0F
    case Memory24 => 0x01 case GenericRegister => 0x02 case Memory32 => 0x05 case FixedMemory32 => 0x06
  }

  /** The full size of a descriptor without its header. */
  function AmlSize(k: Kind): nat {
    match k
    case Irq => 3 case Dma => 2 case StartDependent => 1 case EndDependent => 0
    case Io => 7 case FixedIo => 3 case FixedDma => 5 case EndTag => 1
    case Memory24 => 9 case GenericRegister => 12 case Memory32 => 17 case FixedMemory32 => 9
  }

  predicate MayBeShorter(k: Kind) { k.Irq? || k.StartDependent? }

  predicate SizeFits(k: Kind, size: nat) { size == AmlSize(k) || (MayBeShorter(k) && size + 1 == AmlSize(k)) }

  function NativeType(k: Kind): nat {
    match k
    case Irq => 0 case Dma => 2 case FixedDma => 3 case Io => 4 case FixedIo => 5
    case Memory24 => 10 case Memory32 => 11 case FixedMemory32 => 12
    case StartDependent => 13 case EndDependent => 14 case GenericRegister => 17 case EndTag => 29
  }

  /** resource_spec_from_native, for the modelled kinds. */
  function KindOfNative(t: nat): Option<Kind> {
    if t == 0 then Some(Irq) else if t == 2 then Some(Dma) else if t == 3 then Some(FixedDma) else if t == 4 then Some(Io)
    else if t == 5 then Some(FixedIo) else if t == 10 then Some(Memory24) else if t == 11 then Some(Memory32)
    else if t == 12 then Some(FixedMemory32) else if t == 13 then Some(StartDependent) else if t == 14 then Some(EndDependent)
    else if t == 17 then Some(GenericRegister) else if t == 29 then Some(EndTag) else None
  }

  lemma KindOfNativeType(k: Kind)
    ensures KindOfNative(NativeType(k)) == Some(k) && NativeType(k) < 30
  {
  }

  const NATIVE_HEADER: nat := 8

  /** The native structure without its array; two kinds have only the header. */
  function Fields(k: Kind): nat {
    match k
    case Irq => 6 case Dma => 4 case StartDependent => 3 case EndDependent => 0 case Io => 8 case FixedIo => 4
    case FixedDma => 6 case EndTag => 0 case Memory24 => 10 case GenericRegister => 16 case Memory32 => 20 case FixedMemory32 => 12
  }

  // length_kind
  const ONE_LESS: nat := 1
  const FULL: nat := 2
  const EDGE: nat := 1
  const ACCEPTABLE: nat := 1

  // ----- the programs -----

  const IRQ_MASK := Packed(1, 6, 5, 16)
  const IRQ_FLAGS: seq<Insn> := [BitField(3, 1, 1, 0), BitField(3, 2, 1, 3), BitField(3, 3, 1, 4), BitField(3, 4, 1, 5)]
  const IRQ_SHORT: seq<Insn> := [SetTo(0, 0, ONE_LESS), SetTo(0, 1, EDGE)]
  const START_FLAGS: seq<Insn> := [BitField(1, 1, 2, 0), BitField(1, 2, 2, 2)]
  const START_SHORT: seq<Insn> := [SetTo(0, 0, ONE_LESS), SetTo(0, 1, ACCEPTABLE), SetTo(0, 2, ACCEPTABLE)]

  /** The fields of the kinds whose program is a plain list. */
  function Moves(k: Kind): seq<Insn>
    requires !MayBeShorter(k)
  {
    match k
    case Dma => [Packed(1, 4, 3, 8), BitField(2, 0, 2, 0), BitField(2, 1, 1, 2), BitField(2, 2, 2, 5)]
    case EndDependent => []
    case Io => [BitField(1, 0, 1, 0), Field(2, 2, 2, 0), Field(4, 4, 2, 0), Field(6, 6, 1, 0), Field(7, 7, 1, 0)]
    case FixedIo => [Field(1, 0, 2, 0), Field(3, 2, 1, 0)]
    case FixedDma => [Field(1, 0, 2, 0), Field(3, 2, 2, 0), Field(5, 4, 1, 0)]
    case EndTag => []
    case Memory24 => [BitField(3, 0, 1, 0), Field(4, 2, 2, 4)]
    case GenericRegister => [Field(3, 0, 1, 4), Field(7, 8, 8, 0)]
    case Memory32 => [BitField(3, 0, 1, 0), Field(4, 4, 4, 4)]
    case FixedMemory32 => [BitField(3, 0, 1, 0), Field(4, 4, 4, 0), Field(8, 8, 4, 0)]
  }

  function ToNativeProgram(k: Kind): Program {
    match k
    case Irq => [IRQ_MASK, SkipIfLess(3, 6), SetTo(0, 0, FULL)] + IRQ_FLAGS + [End] + IRQ_SHORT + [End]
    case StartDependent => [SkipIfLess(1, 4), SetTo(0, 0, FULL)] + START_FLAGS + [End] + START_SHORT + [End]
    case _ => Moves(k) + [End]
  }

  /** The skip of a short StartDependent descriptor passes over one of the two flags only. */
  function ToAmlProgram(k: Kind): Program {
    match k
    case Irq => [IRQ_MASK, SkipIfLess(3, 4)] + IRQ_FLAGS + [End]
    case StartDependent => [SkipIfLess(1, 1)] + START_FLAGS + [End]
    case _ => Moves(k) + [End]
  }

  // ----- what they execute -----

  function NativeList(k: Kind, size: nat): seq<Insn>
    requires SizeFits(k, size)
  {
    match k
    case Irq => if size < 3 then [IRQ_MASK] + IRQ_SHORT else [IRQ_MASK, SetTo(0, 0, FULL)] + IRQ_FLAGS
    case StartDependent => if size < 1 then START_SHORT else [SetTo(0, 0, FULL)] + START_FLAGS
    case _ => Moves(k)
  }

  function AmlList(k: Kind, size: nat): seq<Insn>
    requires SizeFits(k, size)
  {
    match k
    case Irq => if size < 3 then [IRQ_MASK] else [IRQ_MASK] + IRQ_FLAGS
    case StartDependent => if size < 1 then [START_FLAGS[1]] else START_FLAGS
    case _ => Moves(k)
  }

  predicate Plain(list: seq<Insn>) { forall i :: 0 <= i < |list| ==> !list[i].End? && !list[i].SkipIfLess? }

  /** A stretch of plain instructions up to an End is executed as it stands. */
  lemma {:induction false} SegmentRuns(prog: Program, from: nat, list: seq<Insn>, size: nat)
    requires Plain(list) && from + |list| < |prog| && prog[from..from + |list|] == list && prog[from + |list|] == End
    ensures Linear(prog, from, size) == Some(list)
    decreases |list|
  {
    if list != [] {
      assert prog[from] == prog[from..from + |list|][0];
      assert prog[from + 1..from + 1 + |list[1..]|] == prog[from..from + |list|][1..];
      SegmentRuns(prog, from + 1, list[1..], size);
      assert [list[0]] + list[1..] == list;
    }
  }

  lemma MovesPlain(k: Kind)
    requires !MayBeShorter(k)
    ensures Plain(Moves(k))
  {
  }

  lemma IrqRuns(size: nat)
    requires SizeFits(Irq, size)
    ensures Linear(ToNativeProgram(Irq), 0, size) == Some(NativeList(Irq, size))
    ensures Linear(ToAmlProgram(Irq), 0, size) == Some(AmlList(Irq, size))
  {
    var p := ToNativeProgram(Irq);
    assert |p| == 11 && p[0] == IRQ_MASK && p[1] == SkipIfLess(3, 6) && p[7] == End && p[10] == End;
    if size < 3 {
      assert p[8..10] == IRQ_SHORT;
      SegmentRuns(p, 8, IRQ_SHORT, size);
    } else {
      assert p[2..7] == [SetTo(0, 0, FULL)] + IRQ_FLAGS;
      SegmentRuns(p, 2, [SetTo(0, 0, FULL)] + IRQ_FLAGS, size);
      assert [IRQ_MASK] + ([SetTo(0, 0, FULL)] + IRQ_FLAGS) == [IRQ_MASK, SetTo(0, 0, FULL)] + IRQ_FLAGS;
    }
    IrqRunsBack(size);
  }

  lemma IrqRunsBack(size: nat)
    requires SizeFits(Irq, size)
    ensures Linear(ToAmlProgram(Irq), 0, size) == Some(AmlList(Irq, size))
  {
    var q := ToAmlProgram(Irq);
    assert |q| == 7 && q[0] == IRQ_MASK && q[1] == SkipIfLess(3, 4) && q[6] == End;
    if size < 3 {
      SegmentRuns(q, 6, [], size);
      assert [IRQ_MASK] + [] == [IRQ_MASK];
    } else {
      assert q[2..6] == IRQ_FLAGS;
      SegmentRuns(q, 2, IRQ_FLAGS, size);
    }
  }

  lemma StartRuns(size: nat)
    requires SizeFits(StartDependent, size)
    ensures Linear(ToNativeProgram(StartDependent), 0, size) == Some(NativeList(StartDependent, size))
    ensures Linear(ToAmlProgram(StartDependent), 0, size) == Some(AmlList(StartDependent, size))
  {
    var p, q := ToNativeProgram(StartDependent), ToAmlProgram(StartDependent);
    assert |p| == 9 && p[0] == SkipIfLess(1, 4) && p[4] == End && p[8] == End;
    assert |q| == 4 && q[0] == SkipIfLess(1, 1) && q[3] == End;
    if size < 1 {
      assert p[5..8] == START_SHORT;
      SegmentRuns(p, 5, START_SHORT, size);
      assert q[2..3] == [START_FLAGS[1]];
      SegmentRuns(q, 2, [START_FLAGS[1]], size);
    } else {
      assert p[1..4] == [SetTo(0, 0, FULL)] + START_FLAGS;
      SegmentRuns(p, 1, [SetTo(0, 0, FULL)] + START_FLAGS, size);
      assert q[1..3] == START_FLAGS;
      SegmentRuns(q, 1, START_FLAGS, size);
    }
  }

  /** The programs, skips and all, execute these lists. */
  lemma ProgramsRun(k: Kind, size: nat)
    requires SizeFits(k, size)
    ensures Linear(ToNativeProgram(k), 0, size) == Some(NativeList(k, size))
    ensures Linear(ToAmlProgram(k), 0, size) == Some(AmlList(k, size))
  {
    if k.Irq? {
      IrqRuns(size);
    } else if k.StartDependent? {
      StartRuns(size);
    } else {
      MovesPlain(k);
      SegmentRuns(Moves(k) + [End], 0, Moves(k), size);
    }
  }
}
