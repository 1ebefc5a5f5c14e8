/**
  Field units (io.c): bit fields of an operation region that is read and written only in
  whole access units.  The region is memory-like: a byte array with a bounds check.
 */
module FieldUnit {
  import opened Bits
  import opened BitCopy
  import opened BufferField

  datatype UpdateRule = Preserve | WriteAsOnes | WriteAsZeroes | Unknown

  /** A field of kind NORMAL; `bitOffset` counts from the start of its first access unit. */
  datatype Field = Field(byteOffset: nat, bitOffset: nat, bitLength: nat, width: nat, rule: UpdateRule)
  {
    predicate Valid() {
      && (width == 1 || width == 2 || width == 4 || width == 8)
      && bitOffset < 8 * width
    }

    /** The field's first bit, counted from the start of the region. */
    function Start(): nat { 8 * byteOffset + bitOffset }

    function End(): nat { Start() + bitLength }
  }

  /** The bytes of the access units that cover `bits` bits from the start of the first one. */
  function Span(bits: nat, width: nat): (n: nat)
    requires width > 0
    ensures 8 * n >= bits && (bits > 0 ==> n >= width && 8 * n < bits + 8 * width)
    decreases bits
  {
    if bits == 0 then 0
    else if bits <= 8 * width then width
    else width + Span(bits - 8 * width, width)
  }

  /** dispatch_field_io for a read: little-endian, upper bytes zero. */
  method AccessRead(mem: array<bv8>, offset: nat, width: nat) returns (ok: bool, out: seq<bv8>)
    requires width <= 8
    ensures ok == (offset + width <= mem.Length) && |out| == 8
    ensures ok ==> forall j :: 0 <= j < 8 ==> out[j] == if j < width then mem[offset + j] else 0
  {
    ok := offset + width <= mem.Length;
    if ok {
      out := seq(8, j requires 0 <= j < 8 reads mem => if j < width then mem[offset + j] else 0);
    } else {
      out := seq(8, j => 0);
    }
  }

  /** dispatch_field_io for a write. */
  method AccessWrite(mem: array<bv8>, offset: nat, width: nat, value: seq<bv8>) returns (ok: bool)
    requires width <= 8 == |value|
    modifies mem
    ensures ok == (offset + width <= mem.Length)
    ensures forall j :: 0 <= j < mem.Length ==>
              mem[j] == if ok && offset <= j < offset + width then value[j - offset] else old(mem[j])
  {
    ok := offset + width <= mem.Length;
    if ok {
      forall j | offset <= j < offset + width {
        mem[j] := value[j - offset];
      }
    }
  }

  // ----- reading -----

  predicate OneAccess(f: Field) {
    f.bitOffset == 0 && BytesFor(f.bitLength) <= f.width
  }

  /** The bytes a read touches: one unit on the fast path, else the units covering the field. */
  function ReadSpan(f: Field): nat
    requires f.Valid()
  {
    if OneAccess(f) then f.width else Span(f.bitOffset + f.bitLength, f.width)
  }

  /** A bit of an access unit is a bit of the region. */
  lemma UnitBit(out: seq<bv8>, mem: seq<bv8>, offset: nat, width: nat, x: nat)
    requires |out| == 8 && x < 8 * width <= 64 && offset + width <= |mem|
    requires forall j :: 0 <= j < width ==> out[j] == mem[offset + j]
    ensures BitAt(out, x) == BitAt(mem, 8 * offset + x)
  {
    DivMod8(offset + x / 8, x % 8);
    assert 8 * offset + x == 8 * (offset + x / 8) + x % 8;
  }

  /** A chunk taken from the unit at `offset` extends what has been read. */
  lemma ExtendRead(
    now: seq<bv8>, mid: seq<bv8>, was: seq<bv8>, mem: seq<bv8>, start: nat, done: nat,
    out: seq<bv8>, offset: nat, width: nat, unitIndex: nat, chunk: nat)
    requires |out| == 8 && 8 * width <= 64 && offset + width <= |mem| && |was| == |mid|
    requires forall j :: 0 <= j < width ==> out[j] == mem[offset + j]
    requires unitIndex + chunk <= 8 * width && (chunk > 0 ==> 8 * offset + unitIndex == start + done)
    requires start + done + chunk <= 8 * |mem|
    requires done > 0 ==> IsCopy(mid, was, 0, 8 * |was|, mem, start, done)
    requires var at := if done < 8 * |was| then done else 8 * |was|;
             IsCopy(now, mid, at, 8 * |was| - at, out, unitIndex, chunk)
    ensures IsCopy(now, was, 0, 8 * |was|, mem, start, done + chunk)
  {
    var at := if done < 8 * |was| then done else 8 * |was|;
    forall i | 0 <= i < 8 * |was|
      ensures BitAt(now, i) == Copied(was, 0, 8 * |was|, mem, start, done + chunk, i)
    {
      assert BitAt(now, i) == Copied(mid, at, 8 * |was| - at, out, unitIndex, chunk, i);
      if i < done {
        assert BitAt(mid, i) == Copied(was, 0, 8 * |was|, mem, start, done, i);
      } else if i < done + chunk {
        UnitBit(out, mem, offset, width, unitIndex + (i - at));
        assert 8 * offset + (unitIndex + (i - at)) == start + i;
      }
    }
  }

  /** How many units of `unitBits` bits cover `bits` bits. */
  function Units(bits: nat, unitBits: nat): (n: nat)
    requires unitBits > 0
    ensures n == 0 <==> bits == 0
    decreases bits
  {
    if bits == 0 then 0 else if bits <= unitBits then 1 else 1 + Units(bits - unitBits, unitBits)
  }

  lemma {:induction false} UnitsIsAlignedDivision(bits: nat, unitBits: nat)
    requires unitBits == 8 || unitBits == 16 || unitBits == 32 || unitBits == 64
    ensures (bits + unitBits - 1) / unitBits == Units(bits, unitBits)
    decreases bits
  {
    if bits > unitBits {
      UnitsIsAlignedDivision(bits - unitBits, unitBits);
    }
  }

  /** UACPI_ALIGN_UP(bits, unitBits) / unitBits */
  method ReadsToDo(bits: nat, unitBits: nat) returns (n: nat)
    requires unitBits == 8 || unitBits == 16 || unitBits == 32 || unitBits == 64
    ensures n == Units(bits, unitBits)
  {
    UnitsIsAlignedDivision(bits, unitBits);
    n := (bits + unitBits - 1) / unitBits;
  }

  /** Taking the rest of a unit, or the rest of the bits, leaves one unit less. */
  lemma ChunkStep(unitIndex: nat, bitsLeft: nat, width: nat)
    requires unitIndex < 8 * width && unitIndex + bitsLeft > 0
    ensures var rest := if bitsLeft < 8 * width - unitIndex then 0 else bitsLeft - (8 * width - unitIndex);
            && Units(unitIndex + bitsLeft, 8 * width) == 1 + Units(rest, 8 * width)
            && Span(unitIndex + bitsLeft, width) == width + Span(rest, width)
  {
  }

  /** One access of the loop below: `chunk` bits of the unit at `offset` go to the destination. */
  method ReadChunk(
    mem: array<bv8>, offset: nat, width: nat, unitIndex: nat, chunk: nat,
    dst: array<bv8>, ghost was: seq<bv8>, dstIndex: nat, ghost start: nat, ghost done: nat)
    returns (ok: bool)
    requires mem != dst && |was| == dst.Length
    requires 8 * width <= 64 && unitIndex + chunk <= 8 * width
    requires chunk > 0 ==> 8 * offset + unitIndex == start + done
    requires start + done <= 8 * (offset + width)
    requires dstIndex == if done < 8 * dst.Length then done else 8 * dst.Length
    requires done > 0 ==> start + done <= 8 * mem.Length && IsCopy(dst[..], was, 0, 8 * |was|, mem[..], start, done)
    modifies dst
    ensures ok == (offset + width <= mem.Length)
    ensures ok ==> start + done + chunk <= 8 * mem.Length
                   && IsCopy(dst[..], was, 0, 8 * |was|, mem[..], start, done + chunk)
  {
    var out;
    ok, out := AccessRead(mem, offset, width);
    if ok {
      ghost var mid := dst[..];
      Copy(dst, dstIndex, 8 * dst.Length - dstIndex, out, unitIndex, chunk);
      ExtendRead(dst[..], mid, was, mem[..], start, done, out, offset, width, unitIndex, chunk);
    }
  }

  /** The counters of the read loop: where the next access goes and what is still to do. */
  datatype ReadCursor = ReadCursor(offset: nat, bitsLeft: nat, unitIndex: nat, dstIndex: nat, readsToDo: nat)

  ghost predicate Reading(f: Field, size: nat, c: ReadCursor) {
    && f.Valid()
    && c.bitsLeft <= f.bitLength && c.unitIndex < 8 * f.width
    && c.readsToDo == Units(c.unitIndex + c.bitsLeft, 8 * f.width)
    && c.offset + Span(c.unitIndex + c.bitsLeft, f.width) == f.byteOffset + Span(f.bitOffset + f.bitLength, f.width)
    && var done := f.bitLength - c.bitsLeft;
    && c.dstIndex == (if done < 8 * size then done else 8 * size)
    && f.Start() + done <= 8 * c.offset + c.unitIndex
    && (c.bitsLeft > 0 ==> 8 * c.offset + c.unitIndex == f.Start() + done)
  }

  function NextRead(f: Field, size: nat, c: ReadCursor, chunk: nat): ReadCursor
    requires chunk <= c.bitsLeft && c.readsToDo > 0
  {
    var dstIndex := if c.dstIndex + chunk < 8 * size then c.dstIndex + chunk else 8 * size;
    ReadCursor(c.offset + f.width, c.bitsLeft - chunk, 0, dstIndex, c.readsToDo - 1)
  }

  lemma ReadingStep(f: Field, size: nat, c: ReadCursor, chunk: nat)
    requires Reading(f, size, c) && c.readsToDo > 0
    requires chunk == if c.bitsLeft < 8 * f.width - c.unitIndex then c.bitsLeft else 8 * f.width - c.unitIndex
    ensures Reading(f, size, NextRead(f, size, c, chunk))
    ensures f.byteOffset + Span(f.bitOffset + f.bitLength, f.width) >= c.offset + f.width
  {
    ChunkStep(c.unitIndex, c.bitsLeft, f.width);
  }

  /** Nothing is read yet, or the destination holds the first bits of the field and zeros. */
  ghost predicate HasRead(f: Field, dst: seq<bv8>, was: seq<bv8>, mem: seq<bv8>, c: ReadCursor) {
    c.readsToDo == 0 || c.bitsLeft < f.bitLength ==>
      && c.bitsLeft <= f.bitLength && c.offset <= |mem| && f.End() - c.bitsLeft <= 8 * |mem|
      && IsCopy(dst, was, 0, 8 * |was|, mem, f.Start(), f.bitLength - c.bitsLeft)
  }

  method ReadOnce(mem: array<bv8>, f: Field, dst: array<bv8>, ghost was: seq<bv8>, c: ReadCursor)
    returns (ok: bool, c': ReadCursor)
    requires mem != dst && |was| == dst.Length && c.readsToDo > 0
    requires Reading(f, dst.Length, c) && HasRead(f, dst[..], was, mem[..], c)
    modifies dst
    ensures c'.readsToDo < c.readsToDo
    ensures if ok then Reading(f, dst.Length, c') && HasRead(f, dst[..], was, mem[..], c')
            else f.byteOffset + Span(f.bitOffset + f.bitLength, f.width) > mem.Length
  {
    var chunk := if c.bitsLeft < 8 * f.width - c.unitIndex then c.bitsLeft else 8 * f.width - c.unitIndex;
    ReadingStep(f, dst.Length, c, chunk);
    c' := NextRead(f, dst.Length, c, chunk);
    ok := ReadChunk(mem, c.offset, f.width, c.unitIndex, chunk, dst, was, c.dstIndex, f.Start(), f.bitLength - c.bitsLeft);
  }

  /** do_read_misaligned_field_unit */
  method ReadMisaligned(mem: array<bv8>, f: Field, dst: array<bv8>) returns (ok: bool)
    requires f.Valid() && mem != dst && f.bitOffset + f.bitLength > 0
    modifies dst
    ensures ok == (f.byteOffset + Span(f.bitOffset + f.bitLength, f.width) <= mem.Length)
    ensures ok ==> IsCopy(dst[..], old(dst[..]), 0, 8 * dst.Length, mem[..], f.Start(), f.bitLength)
  {
    var readsToDo := ReadsToDo(f.bitOffset + f.bitLength, 8 * f.width);
    var c := ReadCursor(f.byteOffset, f.bitLength, f.bitOffset, 0, readsToDo);
    while c.readsToDo > 0
      invariant Reading(f, dst.Length, c) && HasRead(f, dst[..], old(dst[..]), mem[..], c)
      decreases c.readsToDo
    {
      ok, c := ReadOnce(mem, f, dst, old(dst[..]), c);
      if !ok {
        return;
      }
    }
    ok := true;
  }

  /** One bit of the fast path: copy, zero-extend, cut the tail. */
  lemma FastReadBit(now: seq<bv8>, mid: seq<bv8>, was: seq<bv8>, out: seq<bv8>, mem: seq<bv8>, f: Field, i: nat)
    requires f.Valid() && OneAccess(f) && f.byteOffset + f.width <= |mem| && i < 8 * |was|
    requires |now| == |mid| == |was| && |out| == 8
    requires forall j :: 0 <= j < f.width ==> out[j] == mem[f.byteOffset + j]
    requires forall j :: 0 <= j < |mid| ==> mid[j] == if j < BytesFor(f.bitLength) then out[j] else 0
    requires forall j :: 0 <= j < |now| && j != BytesFor(f.bitLength) - 1 ==> now[j] == mid[j]
    requires var last := BytesFor(f.bitLength) - 1; 0 <= last < |now| ==> TailCut(now[last], mid[last], f.bitLength)
    ensures BitAt(now, i) == Copied(was, 0, 8 * |was|, mem, f.Start(), f.bitLength, i)
  {
    var b, r, last := i / 8, i % 8, BytesFor(f.bitLength) - 1;
    BitZero(r);
    TailPosition(f.bitLength, i);
    if i < f.bitLength {
      UnitBit(out, mem, f.byteOffset, f.width, i);
      assert Bit(mid[b], r) == Bit(out[b], r) == BitAt(mem, f.Start() + i);
    }
    if b == last {
      assert TailCut(now[last], mid[last], f.bitLength);
    } else {
      assert now[b] == mid[b];
    }
  }

  method ReadFast(mem: array<bv8>, f: Field, dst: array<bv8>) returns (ok: bool)
    requires f.Valid() && mem != dst && OneAccess(f)
    modifies dst
    ensures ok == (f.byteOffset + f.width <= mem.Length)
    ensures ok ==> IsCopy(dst[..], old(dst[..]), 0, 8 * dst.Length, mem[..], f.Start(), f.bitLength)
  {
    var bytes := BytesFor(f.bitLength);
    var out;
    ok, out := AccessRead(mem, f.byteOffset, f.width);
    if ok {
      ghost var was := dst[..];
      CopyZeroExtended(dst, 0, dst.Length, out[..bytes]);
      ghost var mid := dst[..];
      if dst.Length >= bytes && bytes > 0 {
        var last := CutMisalignedTail(dst[bytes - 1], f.bitLength);
        dst[bytes - 1] := last;
      }
      forall i | 0 <= i < 8 * dst.Length
        ensures BitAt(dst[..], i) == Copied(was, 0, 8 * dst.Length, mem[..], f.Start(), f.bitLength, i)
      {
        FastReadBit(dst[..], mid, was, out, mem[..], f, i);
      }
    }
  }

  /**
    uacpi_read_field_unit: whichever path is taken, the destination becomes the field's
    bits, cut or zero-extended to its size, and the read fails only out of bounds.
   */
  method Read(mem: array<bv8>, f: Field, dst: array<bv8>) returns (ok: bool)
    requires f.Valid() && mem != dst
    modifies dst
    ensures ok == (f.byteOffset + ReadSpan(f) <= mem.Length)
    ensures ok ==> IsCopy(dst[..], old(dst[..]), 0, 8 * dst.Length, mem[..], f.Start(), f.bitLength)
  {
    if f.bitOffset == 0 && BytesFor(f.bitLength) <= f.width {
      ok := ReadFast(mem, f, dst);
    } else {
      ok := ReadMisaligned(mem, f, dst);
    }
  }

  // ----- writing -----

  /**
    The region's bit `q` after the first `bytes` bytes of the field's access units have
    been written: field bits come from the source padded with zeros, the other bits of
    those units follow the update rule, everything else is kept.
   */
  predicate WrittenBit(was: seq<bv8>, f: Field, src: seq<bv8>, bytes: nat, q: nat)
    requires q < 8 * |was|
  {
    if !(8 * f.byteOffset <= q < 8 * (f.byteOffset + bytes)) then BitAt(was, q)
    else if f.Start() <= q < f.End() then q - f.Start() < 8 * |src| && BitAt(src, q - f.Start())
    else match f.rule
      case Preserve => BitAt(was, q)
      case WriteAsOnes => true
      case WriteAsZeroes => false
      case Unknown => BitAt(was, q)
  }

  ghost predicate IsWritten(now: seq<bv8>, was: seq<bv8>, f: Field, src: seq<bv8>, bytes: nat) {
    |now| == |was| && forall q :: 0 <= q < 8 * |now| ==> BitAt(now, q) == WrittenBit(was, f, src, bytes, q)
  }

  function WriteSpan(f: Field): nat
    requires f.Valid()
  {
    if f.bitLength == 0 then 0 else Span(f.bitOffset + f.bitLength, f.width)
  }

  /** What the update rule puts around the field's bits in a unit that they do not fill. */
  method Background(mem: array<bv8>, f: Field, offset: nat, partial: bool) returns (ok: bool, unit: seq<bv8>)
    requires f.Valid()
    ensures |unit| == 8
    ensures ok == (partial ==> !f.rule.Unknown? && (f.rule.Preserve? ==> offset + f.width <= mem.Length))
    ensures ok && partial && f.rule.Preserve? ==> forall j :: 0 <= j < f.width ==> unit[j] == mem[offset + j]
    ensures partial && f.rule.WriteAsOnes? ==> forall x :: 0 <= x < 64 ==> BitAt(unit, x)
    ensures partial && f.rule.WriteAsZeroes? ==> forall x :: 0 <= x < 64 ==> !BitAt(unit, x)
  {
    ok, unit := true, [0, 0, 0, 0, 0, 0, 0, 0];
    if partial {
      match f.rule
      case Preserve => ok, unit := AccessRead(mem, offset, f.width);
      case WriteAsOnes =>
        unit := [0xFF, 0xFF, 0xFF, 0xFF, 0xFF, 0xFF, 0xFF, 0xFF];
        forall x | 0 <= x < 64 ensures BitAt(unit, x) { BitLowMask(8, x % 8); }
      case WriteAsZeroes =>
        forall x | 0 <= x < 64 ensures !BitAt(unit, x) { BitZero(x % 8); }
      case Unknown => ok := false;
    }
  }

  /** The counters of the write loop. */
  datatype WriteCursor = WriteCursor(offset: nat, bitsLeft: nat, unitIndex: nat, srcIndex: nat)

  ghost predicate Writing(f: Field, srcSize: nat, c: WriteCursor) {
    && f.Valid()
    && c.bitsLeft <= f.bitLength && f.byteOffset <= c.offset
    && c.unitIndex == (if c.bitsLeft == f.bitLength then f.bitOffset else 0)
    && c.offset + (if c.bitsLeft == 0 then 0 else Span(c.unitIndex + c.bitsLeft, f.width)) == f.byteOffset + WriteSpan(f)
    && var done := f.bitLength - c.bitsLeft;
    && c.srcIndex == (if done < 8 * srcSize then done else 8 * srcSize)
    && (c.bitsLeft > 0 ==> 8 * c.offset + c.unitIndex == f.Start() + done)
  }

  function Chunk(f: Field, c: WriteCursor): nat
    requires c.unitIndex < 8 * f.width
  {
    if 8 * f.width - c.unitIndex < c.bitsLeft then 8 * f.width - c.unitIndex else c.bitsLeft
  }

  function NextWrite(f: Field, srcSize: nat, c: WriteCursor): WriteCursor
    requires c.unitIndex < 8 * f.width
  {
    var chunk := Chunk(f, c);
    var srcIndex := if c.srcIndex + chunk < 8 * srcSize then c.srcIndex + chunk else 8 * srcSize;
    WriteCursor(c.offset + f.width, c.bitsLeft - chunk, 0, srcIndex)
  }

  lemma WritingStep(f: Field, srcSize: nat, c: WriteCursor)
    requires Writing(f, srcSize, c) && c.bitsLeft > 0
    ensures Writing(f, srcSize, NextWrite(f, srcSize, c))
    ensures NextWrite(f, srcSize, c).bitsLeft < c.bitsLeft
    ensures c.offset + f.width <= f.byteOffset + WriteSpan(f)
  {
    ChunkStep(c.unitIndex, c.bitsLeft, f.width);
  }

  predicate Partial(f: Field, c: WriteCursor)
    requires c.unitIndex < 8 * f.width
  {
    c.unitIndex != 0 || Chunk(f, c) < 8 * f.width
  }

  /** What the update rule asks of the bits around the field, bit by bit. */
  ghost predicate Surrounds(background: seq<bv8>, f: Field, c: WriteCursor, mid: seq<bv8>)
    requires f.Valid() && c.unitIndex < 8 * f.width && |background| == 8
  {
    Partial(f, c) ==>
      match f.rule
      case Preserve => c.offset + f.width <= |mid|
                       && forall x :: 0 <= x < 8 * f.width ==> BitAt(background, x) == BitAt(mid, 8 * c.offset + x)
      case WriteAsOnes => forall x :: 0 <= x < 64 ==> BitAt(background, x)
      case WriteAsZeroes => forall x :: 0 <= x < 64 ==> !BitAt(background, x)
      case Unknown => false
  }

  /** A bit of the unit at the cursor, once prepared. */
  lemma UnitWritten(
    mid: seq<bv8>, was: seq<bv8>, f: Field, src: seq<bv8>, c: WriteCursor, background: seq<bv8>, unit: seq<bv8>, x: nat)
    requires Writing(f, |src|, c) && c.bitsLeft > 0 && c.offset + f.width <= |was| && |mid| == |was|
    requires |unit| == |background| == 8 && x < 8 * f.width
    requires BitAt(mid, 8 * c.offset + x) == BitAt(was, 8 * c.offset + x)
    requires IsCopy(unit, background, c.unitIndex, Chunk(f, c), src, c.srcIndex, 8 * |src| - c.srcIndex)
    requires Surrounds(background, f, c, mid)
    ensures BitAt(unit, x) == WrittenBit(was, f, src, c.offset + f.width - f.byteOffset, 8 * c.offset + x)
  {
    var q := 8 * c.offset + x;
    assert BitAt(unit, x) == Copied(background, c.unitIndex, Chunk(f, c), src, c.srcIndex, 8 * |src| - c.srcIndex, x);
    if c.unitIndex <= x < c.unitIndex + Chunk(f, c) {
      assert q - f.Start() == (f.bitLength - c.bitsLeft) + (x - c.unitIndex);
    } else {
      assert !(f.Start() <= q < f.End());
    }
  }

  /** The region after that unit is stored. */
  lemma Stored(
    now: seq<bv8>, mid: seq<bv8>, was: seq<bv8>, f: Field, src: seq<bv8>, c: WriteCursor,
    background: seq<bv8>, unit: seq<bv8>)
    requires Writing(f, |src|, c) && c.bitsLeft > 0 && c.offset + f.width <= |was|
    requires IsWritten(mid, was, f, src, c.offset - f.byteOffset)
    requires |now| == |mid| && |unit| == |background| == 8
    requires forall j :: 0 <= j < |now| ==> now[j] == if c.offset <= j < c.offset + f.width then unit[j - c.offset] else mid[j]
    requires IsCopy(unit, background, c.unitIndex, Chunk(f, c), src, c.srcIndex, 8 * |src| - c.srcIndex)
    requires Surrounds(background, f, c, mid)
    ensures IsWritten(now, was, f, src, c.offset + f.width - f.byteOffset)
  {
    forall q | 0 <= q < 8 * |now|
      ensures BitAt(now, q) == WrittenBit(was, f, src, c.offset + f.width - f.byteOffset, q)
    {
      if 8 * c.offset <= q < 8 * (c.offset + f.width) {
        StoredInside(now, mid, was, f, src, c, background, unit, q - 8 * c.offset, q);
      } else {
        Untouched(now, mid, was, f, src, c.offset - f.byteOffset, c.offset + f.width - f.byteOffset, q);
      }
    }
  }

  lemma StoredInside(
    now: seq<bv8>, mid: seq<bv8>, was: seq<bv8>, f: Field, src: seq<bv8>, c: WriteCursor,
    background: seq<bv8>, unit: seq<bv8>, x: nat, q: nat)
    requires Writing(f, |src|, c) && c.bitsLeft > 0 && c.offset + f.width <= |was|
    requires IsWritten(mid, was, f, src, c.offset - f.byteOffset)
    requires |now| == |mid| && |unit| == |background| == 8 && x < 8 * f.width && q == 8 * c.offset + x
    requires forall j :: 0 <= j < f.width ==> unit[j] == now[c.offset + j]
    requires IsCopy(unit, background, c.unitIndex, Chunk(f, c), src, c.srcIndex, 8 * |src| - c.srcIndex)
    requires Surrounds(background, f, c, mid)
    ensures BitAt(now, q) == WrittenBit(was, f, src, c.offset + f.width - f.byteOffset, q)
  {
    UnitBit(unit, now, c.offset, f.width, x);
    StillOld(mid, was, f, src, c.offset - f.byteOffset, q);
    UnitWritten(mid, was, f, src, c, background, unit, x);
  }

  lemma StillOld(mid: seq<bv8>, was: seq<bv8>, f: Field, src: seq<bv8>, bytes: nat, q: nat)
    requires IsWritten(mid, was, f, src, bytes) && 8 * (f.byteOffset + bytes) <= q < 8 * |mid|
    ensures BitAt(mid, q) == BitAt(was, q)
  {
  }

  lemma Untouched(now: seq<bv8>, mid: seq<bv8>, was: seq<bv8>, f: Field, src: seq<bv8>, bytes: nat, more: nat, q: nat)
    requires IsWritten(mid, was, f, src, bytes) && q < 8 * |mid| && |now| == |mid| && now[q / 8] == mid[q / 8]
    requires bytes <= more && !(8 * (f.byteOffset + bytes) <= q < 8 * (f.byteOffset + more))
    ensures BitAt(now, q) == WrittenBit(was, f, src, more, q)
  {
    assert BitAt(mid, q) == WrittenBit(was, f, src, bytes, q);
  }

  /** The unit at the cursor with the field's bits in place. */
  method PrepareUnit(mem: array<bv8>, f: Field, src: seq<bv8>, c: WriteCursor)
    returns (ok: bool, unit: seq<bv8>, ghost background: seq<bv8>)
    requires f.Valid() && c.unitIndex < 8 * f.width && c.srcIndex <= 8 * |src|
    ensures |unit| == |background| == 8
    ensures !ok ==> c.offset + f.width > mem.Length || (f.rule.Unknown? && Partial(f, c))
    ensures ok ==> Surrounds(background, f, c, mem[..])
    ensures ok ==> IsCopy(unit, background, c.unitIndex, Chunk(f, c), src, c.srcIndex, 8 * |src| - c.srcIndex)
  {
    var around;
    ok, around := Background(mem, f, c.offset, Partial(f, c));
    background, unit := around, around;
    if ok {
      if Partial(f, c) && f.rule.Preserve? {
        forall x | 0 <= x < 8 * f.width ensures BitAt(around, x) == BitAt(mem[..], 8 * c.offset + x) {
          UnitBit(around, mem[..], c.offset, f.width, x);
        }
      }
      var in_ := new bv8[8](j requires 0 <= j < 8 => around[j]);
      assert in_[..] == around;
      Copy(in_, c.unitIndex, Chunk(f, c), src, c.srcIndex, 8 * |src| - c.srcIndex);
      unit := in_[..];
    }
  }

  /** One turn of the write loop. */
  method WriteOnce(mem: array<bv8>, f: Field, src: seq<bv8>, ghost was: seq<bv8>, c: WriteCursor) returns (ok: bool)
    requires Writing(f, |src|, c) && c.bitsLeft > 0
    requires IsWritten(mem[..], was, f, src, c.offset - f.byteOffset)
    modifies mem
    ensures ok == (c.offset + f.width <= mem.Length && !(f.rule.Unknown? && Partial(f, c)))
    ensures IsWritten(mem[..], was, f, src, c.offset + (if ok then f.width else 0) - f.byteOffset)
  {
    ghost var mid := mem[..];
    var unit;
    ghost var background;
    ok, unit, background := PrepareUnit(mem, f, src, c);
    if ok {
      ok := AccessWrite(mem, c.offset, f.width, unit);
      if ok {
        Stored(mem[..], mid, was, f, src, c, background, unit);
      } else {
        assert mem[..] == mid;
      }
    }
  }

  /** `bits` is a number of whole units. */
  predicate Whole(bits: nat, unit: nat)
    requires unit > 0
    decreases bits
  {
    bits == 0 || (bits >= unit && Whole(bits - unit, unit))
  }

  /** Some access unit of the field holds other bits too. */
  predicate Ragged(f: Field)
    requires f.Valid()
  {
    f.bitOffset != 0 || !Whole(f.bitLength, 8 * f.width)
  }

  /** Under an unknown rule the write loop goes on only through units that the field fills. */
  ghost predicate Even(f: Field, c: WriteCursor)
    requires f.Valid()
  {
    f.rule.Unknown? ==>
      && (c.bitsLeft < f.bitLength ==> f.bitOffset == 0) && (Whole(c.bitsLeft, 8 * f.width) <==> Whole(f.bitLength, 8 * f.width))
  }

  lemma EvenStep(f: Field, srcSize: nat, c: WriteCursor)
    requires Writing(f, srcSize, c) && c.bitsLeft > 0 && Even(f, c)
    ensures f.rule.Unknown? && Partial(f, c) ==> Ragged(f)
    ensures !(f.rule.Unknown? && Partial(f, c)) ==> Even(f, NextWrite(f, srcSize, c))
  {
  }

  /** Between two turns of the write loop. */
  ghost predicate Progress(mem: seq<bv8>, was: seq<bv8>, f: Field, src: seq<bv8>, c: WriteCursor) {
    && Writing(f, |src|, c) && Even(f, c)
    && IsWritten(mem, was, f, src, c.offset - f.byteOffset)
    && (c.bitsLeft < f.bitLength ==> c.offset <= |mem|)
  }

  /** The write stopped after `bytes` bytes, for one of the two reasons. */
  ghost predicate Stopped(mem: seq<bv8>, was: seq<bv8>, f: Field, src: seq<bv8>, bytes: nat)
    requires f.Valid()
  {
    && IsWritten(mem, was, f, src, bytes) && bytes < WriteSpan(f)
    && (f.byteOffset + bytes + f.width > |mem| || (f.rule.Unknown? && Ragged(f)))
    && (f.byteOffset + WriteSpan(f) > |mem| || (f.rule.Unknown? && Ragged(f)))
  }

  method WriteTurn(mem: array<bv8>, f: Field, src: seq<bv8>, ghost was: seq<bv8>, c: WriteCursor)
    returns (ok: bool, c': WriteCursor)
    requires Progress(mem[..], was, f, src, c) && c.bitsLeft > 0
    modifies mem
    ensures if ok then Progress(mem[..], was, f, src, c') && c'.bitsLeft < c.bitsLeft
            else Stopped(mem[..], was, f, src, c.offset - f.byteOffset)
  {
    WritingStep(f, |src|, c);
    EvenStep(f, |src|, c);
    ok := WriteOnce(mem, f, src, was, c);
    c' := NextWrite(f, |src|, c);
  }

  /** At the end an unknown rule was never needed. */
  lemma Finished(mem: seq<bv8>, was: seq<bv8>, f: Field, src: seq<bv8>, c: WriteCursor)
    requires Progress(mem, was, f, src, c) && c.bitsLeft == 0
    ensures c.offset == f.byteOffset + WriteSpan(f)
    ensures WriteSpan(f) > 0 ==> c.offset <= |mem| && !(f.rule.Unknown? && Ragged(f))
  {
  }

  /**
    uacpi_write_field_unit.  A write fails if a unit lies outside the region, or if the
    update rule is unknown and a unit needs it; it stops there, and `bytes` says how much of
    the field's access units was written before.
   */
  method Write(mem: array<bv8>, f: Field, src: seq<bv8>) returns (ok: bool, ghost bytes: nat)
    requires f.Valid()
    modifies mem
    ensures ok == (WriteSpan(f) == 0 || (f.byteOffset + WriteSpan(f) <= mem.Length && !(f.rule.Unknown? && Ragged(f))))
    ensures IsWritten(mem[..], old(mem[..]), f, src, bytes)
    ensures if ok then bytes == WriteSpan(f)
            else bytes < WriteSpan(f) && (f.byteOffset + bytes + f.width > mem.Length || (f.rule.Unknown? && Ragged(f)))
  {
    var c := WriteCursor(f.byteOffset, f.bitLength, f.bitOffset, 0);
    while c.bitsLeft > 0
      invariant Progress(mem[..], old(mem[..]), f, src, c)
      decreases c.bitsLeft
    {
      bytes := c.offset - f.byteOffset;
      ok, c := WriteTurn(mem, f, src, old(mem[..]), c);
      if !ok {
        return;
      }
    }
    Finished(mem[..], old(mem[..]), f, src, c);
    ok, bytes := true, c.offset - f.byteOffset;
  }
}
