/** Buffer fields (io.c): reads and writes of a bit range of a buffer, with a fast path for byte-aligned ranges. */
module BufferField {
  import opened Bits
  import opened BitCopy

  function BytesFor(bits: nat): (n: nat)
    ensures 8 * n >= bits > 8 * (n - 1)
  {
    (bits + 7) / 8
  }

  /** Two byte strings with the same bits are the same. */
  lemma SameBits(a: seq<bv8>, b: seq<bv8>)
    requires |a| == |b|
    requires forall i :: 0 <= i < 8 * |a| ==> BitAt(a, i) == BitAt(b, i)
    ensures a == b
  {
    forall j | 0 <= j < |a| ensures a[j] == b[j] {
      forall k | 0 <= k < 8 ensures Bit(a[j], k) == Bit(b[j], k) {
        assert BitAt(a, 8 * j + k) == BitAt(b, 8 * j + k);
        BitAtByte(a, j, k);
        BitAtByte(b, j, k);
      }
      EqualBits(a[j], b[j]);
    }
  }

  /** memcpy_zerout: `count` bytes at `at`, from `src` as far as it goes, then zeros. */
  method CopyZeroExtended(dst: array<bv8>, at: nat, count: nat, src: seq<bv8>)
    requires at + count <= dst.Length
    modifies dst
    ensures forall j :: 0 <= j < dst.Length ==>
              dst[j] == if at <= j < at + count then (if j - at < |src| then src[j - at] else 0) else old(dst[j])
  {
    forall j | at <= j < at + count {
      dst[j] := if j - at < |src| then src[j - at] else 0;
    }
  }

  /** cut_misaligned_tail */
  method CutMisalignedTail(b: bv8, bitLength: nat) returns (r: bv8)
    ensures forall k :: 0 <= k < 8 ==> Bit(r, k) == (Bit(b, k) && (bitLength % 8 == 0 || k < bitLength % 8))
  {
    r := b;
    if bitLength % 8 != 0 {
      var mask := Mask8(bitLength % 8);
      r := And8(b, mask);
    }
  }

  /** The tail byte of an aligned write: new low bits, old high bits. */
  method MergeTail(now: bv8, was: bv8, tail: nat) returns (r: bv8)
    requires 0 < tail < 8
    ensures forall k :: 0 <= k < 8 ==> Bit(r, k) == if k < tail then Bit(now, k) else Bit(was, k)
  {
    var up := Shl8(now, 8 - tail);
    var low := Shr8(up, 8 - tail);
    var down := Shr8(was, tail);
    var high := Shl8(down, tail);
    r := Or8(low, high);
  }

  /** uacpi_read_buffer_field */
  method Read(backing: array<bv8>, bitIndex: nat, bitLength: nat, dst: array<bv8>)
    requires 0 < bitLength && bitIndex + bitLength <= 8 * backing.Length
    requires BytesFor(bitLength) <= dst.Length && dst != backing
    modifies dst
    ensures IsCopy(dst[..], old(dst[..]), 0, 8 * BytesFor(bitLength), backing[..], bitIndex, bitLength)
  {
    var count := BytesFor(bitLength);
    if bitIndex % 8 == 0 {
      ghost var was := dst[..];
      CopyZeroExtended(dst, 0, count, backing[bitIndex / 8..bitIndex / 8 + count]);
      ghost var mid := dst[..];
      var last := CutMisalignedTail(dst[count - 1], bitLength);
      dst[count - 1] := last;
      forall i | 0 <= i < 8 * dst.Length
        ensures BitAt(dst[..], i) == Copied(was, 0, 8 * count, backing[..], bitIndex, bitLength, i)
      {
        AlignedReadBit(dst[..], mid, was, backing[..], bitIndex, bitLength, i);
      }
    } else {
      Copy(dst, 0, 8 * count, backing[..], bitIndex, bitLength);
    }
  }

  /** Where the last byte of a run of bits is and which of its bits belong to the run. */
  lemma TailPosition(bits: nat, i: nat)
    ensures var last := BytesFor(bits) - 1;
            && (i < bits <==> i / 8 < last || (i / 8 == last && (bits % 8 == 0 || i % 8 < bits % 8)))
            && (i < bits ==> i / 8 < BytesFor(bits))
  {
  }

  /** `now` is `was` with the bits past the end of a run of `bits` bits cleared. */
  ghost predicate TailCut(now: bv8, was: bv8, bits: nat) {
    forall k :: 0 <= k < 8 ==> Bit(now, k) == (Bit(was, k) && (bits % 8 == 0 || k < bits % 8))
  }

  /** `now` is `mid` up to the end of a run of `bits` bits and `was` behind it. */
  ghost predicate TailMerged(now: bv8, mid: bv8, was: bv8, bits: nat) {
    forall k :: 0 <= k < 8 ==> Bit(now, k) == if bits % 8 == 0 || k < bits % 8 then Bit(mid, k) else Bit(was, k)
  }

  lemma AlignedReadBit(
    now: seq<bv8>, mid: seq<bv8>, was: seq<bv8>, backing: seq<bv8>, bitIndex: nat, bitLength: nat, i: nat)
    requires bitIndex % 8 == 0 && 0 < bitLength && bitIndex + bitLength <= 8 * |backing|
    requires BytesFor(bitLength) <= |was| == |mid| == |now| && i < 8 * |was|
    requires forall j :: 0 <= j < |mid| ==>
               mid[j] == if j < BytesFor(bitLength) then backing[bitIndex / 8 + j] else was[j]
    requires forall j :: 0 <= j < |now| && j != BytesFor(bitLength) - 1 ==> now[j] == mid[j]
    requires var last := BytesFor(bitLength) - 1; TailCut(now[last], mid[last], bitLength)
    ensures BitAt(now, i) == Copied(was, 0, 8 * BytesFor(bitLength), backing, bitIndex, bitLength, i)
  {
    var b, r, last := i / 8, i % 8, BytesFor(bitLength) - 1;
    TailPosition(bitLength, i);
    if i < bitLength {
      DivMod8(bitIndex / 8 + b, r);
      assert bitIndex + i == 8 * (bitIndex / 8 + b) + r;
    }
    if b == last {
      assert TailCut(now[last], mid[last], bitLength);
    } else {
      assert now[b] == mid[b];
    }
  }

  /** uacpi_write_buffer_field */
  method Write(backing: array<bv8>, bitIndex: nat, bitLength: nat, src: seq<bv8>)
    requires 0 < bitLength && bitIndex + bitLength <= 8 * backing.Length
    modifies backing
    ensures IsCopy(backing[..], old(backing[..]), bitIndex, bitLength, src, 0, 8 * |src|)
  {
    if bitIndex % 8 == 0 {
      ghost var was := backing[..];
      var at, count := bitIndex / 8, BytesFor(bitLength);
      var lastByte, tail := backing[at + count - 1], bitLength % 8;
      CopyZeroExtended(backing, at, count, src);
      ghost var mid := backing[..];
      if tail != 0 {
        var merged := MergeTail(backing[at + count - 1], lastByte, tail);
        backing[at + count - 1] := merged;
      }
      forall i | 0 <= i < 8 * backing.Length
        ensures BitAt(backing[..], i) == Copied(was, bitIndex, bitLength, src, 0, 8 * |src|, i)
      {
        AlignedWriteBit(backing[..], mid, was, bitIndex, bitLength, src, i);
      }
    } else {
      Copy(backing, bitIndex, bitLength, src, 0, 8 * |src|);
    }
  }

  lemma AlignedWriteBit(
    now: seq<bv8>, mid: seq<bv8>, was: seq<bv8>, bitIndex: nat, bitLength: nat, src: seq<bv8>, i: nat)
    requires bitIndex % 8 == 0 && 0 < bitLength && bitIndex + bitLength <= 8 * |was|
    requires |was| == |mid| == |now| && i < 8 * |was|
    requires var at := bitIndex / 8;
             && (forall j :: 0 <= j < |mid| ==>
                   mid[j] == if at <= j < at + BytesFor(bitLength) then (if j - at < |src| then src[j - at] else 0) else was[j])
             && (forall j :: 0 <= j < |now| && j != at + BytesFor(bitLength) - 1 ==> now[j] == mid[j])
    requires var last := bitIndex / 8 + BytesFor(bitLength) - 1; TailMerged(now[last], mid[last], was[last], bitLength)
    ensures BitAt(now, i) == Copied(was, bitIndex, bitLength, src, 0, 8 * |src|, i)
  {
    var b, k, at := i / 8, i % 8, bitIndex / 8;
    var last := at + BytesFor(bitLength) - 1;
    BitZero(k);
    if b == last {
      assert TailMerged(now[last], mid[last], was[last], bitLength);
    } else {
      assert now[b] == mid[b];
    }
    if i >= bitIndex {
      var j := b - at;
      DivMod8(j, k);
      assert i - bitIndex == 8 * j + k;
      TailPosition(bitLength, i - bitIndex);
      assert j < BytesFor(bitLength) ==> mid[b] == if j < |src| then src[j] else 0;
      assert j >= BytesFor(bitLength) ==> mid[b] == was[b];
    } else {
      assert b < at && mid[b] == was[b];
    }
  }

  // ----- what the two operations mean together -----

  /** Reading back a written field gives the source, cut or zero-extended to the field's length. */
  lemma WriteThenRead(
    b0: seq<bv8>, b1: seq<bv8>, d0: seq<bv8>, d1: seq<bv8>, bitIndex: nat, bitLength: nat, src: seq<bv8>, i: nat)
    requires 0 < bitLength && bitIndex + bitLength <= 8 * |b0|
    requires IsCopy(b1, b0, bitIndex, bitLength, src, 0, 8 * |src|)
    requires IsCopy(d1, d0, 0, 8 * BytesFor(bitLength), b1, bitIndex, bitLength)
    requires i < 8 * BytesFor(bitLength) <= 8 * |d1|
    ensures BitAt(d1, i) == (i < bitLength && i < 8 * |src| && BitAt(src, i))
  {
    assert BitAt(d1, i) == Copied(d0, 0, 8 * BytesFor(bitLength), b1, bitIndex, bitLength, i);
    if i < bitLength {
      assert BitAt(b1, bitIndex + i) == Copied(b0, bitIndex, bitLength, src, 0, 8 * |src|, bitIndex + i);
    }
  }

  /** Writing back what was read changes nothing. */
  lemma ReadThenWrite(
    b0: seq<bv8>, b1: seq<bv8>, d0: seq<bv8>, d1: seq<bv8>, bitIndex: nat, bitLength: nat)
    requires 0 < bitLength && bitIndex + bitLength <= 8 * |b0| && BytesFor(bitLength) <= |d1|
    requires IsCopy(d1, d0, 0, 8 * BytesFor(bitLength), b0, bitIndex, bitLength)
    requires IsCopy(b1, b0, bitIndex, bitLength, d1, 0, 8 * |d1|)
    ensures b1 == b0
  {
    forall i | 0 <= i < 8 * |b0| ensures BitAt(b1, i) == BitAt(b0, i) {
      assert BitAt(b1, i) == Copied(b0, bitIndex, bitLength, d1, 0, 8 * |d1|, i);
      if bitIndex <= i < bitIndex + bitLength {
        var k := i - bitIndex;
        assert BitAt(d1, k) == Copied(d0, 0, 8 * BytesFor(bitLength), b0, bitIndex, bitLength, k);
      }
    }
    SameBits(b1, b0);
  }

  /** Writes to disjoint fields commute. */
  lemma DisjointWritesCommute(
    b: seq<bv8>, x: seq<bv8>, xy: seq<bv8>, y: seq<bv8>, yx: seq<bv8>,
    xi: nat, xl: nat, xs: seq<bv8>, yi: nat, yl: nat, ys: seq<bv8>)
    requires xi + xl <= yi || yi + yl <= xi
    requires IsCopy(x, b, xi, xl, xs, 0, 8 * |xs|) && IsCopy(xy, x, yi, yl, ys, 0, 8 * |ys|)
    requires IsCopy(y, b, yi, yl, ys, 0, 8 * |ys|) && IsCopy(yx, y, xi, xl, xs, 0, 8 * |xs|)
    ensures xy == yx
  {
    forall i | 0 <= i < 8 * |b| ensures BitAt(xy, i) == BitAt(yx, i) {
      assert BitAt(x, i) == Copied(b, xi, xl, xs, 0, 8 * |xs|, i);
      assert BitAt(y, i) == Copied(b, yi, yl, ys, 0, 8 * |ys|, i);
      assert BitAt(xy, i) == Copied(x, yi, yl, ys, 0, 8 * |ys|, i);
      assert BitAt(yx, i) == Copied(y, xi, xl, xs, 0, 8 * |xs|, i);
    }
    SameBits(xy, yx);
  }
}
