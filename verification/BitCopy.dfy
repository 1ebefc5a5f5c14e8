/** bit_copy (io.c): copies a run of bits between byte buffers at any two bit offsets. */
module BitCopy {
  import opened Bits

  /**
    The bit of the destination at `i` after copying the `srcLength` bits of `src` at
    `srcIndex`, padded with zeros, over the `dstLength` bits at `dstIndex`.
   */
  predicate Copied(
    was: seq<bv8>, dstIndex: nat, dstLength: nat, src: seq<bv8>, srcIndex: nat, srcLength: nat, i: nat)
    requires i < 8 * |was| && srcIndex + srcLength <= 8 * |src|
  {
    if dstIndex <= i < dstIndex + dstLength
    then i - dstIndex < srcLength && BitAt(src, srcIndex + (i - dstIndex))
    else BitAt(was, i)
  }

  /** `now` is `was` with that run copied in. */
  ghost predicate IsCopy(
    now: seq<bv8>, was: seq<bv8>, dstIndex: nat, dstLength: nat, src: seq<bv8>, srcIndex: nat, srcLength: nat)
    requires srcIndex + srcLength <= 8 * |src|
  {
    && |now| == |was|
    && forall i :: 0 <= i < 8 * |now| ==>
         BitAt(now, i) == Copied(was, dstIndex, dstLength, src, srcIndex, srcLength, i)
  }

  /** Up to eight source bits, starting at bit `shift` of byte `ptr`. */
  method GatherBits(src: seq<bv8>, ptr: nat, shift: nat, count: nat) returns (bits: bv8)
    requires shift < 8 && count > 0 && 8 * ptr + shift + count <= 8 * |src|
    ensures forall k :: 0 <= k < 8 ==> Bit(bits, k) == (k < count && BitAt(src, 8 * ptr + shift + k))
  {
    var low := Shr8(src[ptr], shift);
    var both := low;
    var wraps := shift != 0 && count > 8 - shift;
    if wraps {
      var high := Shl8(src[ptr + 1], 8 - shift);
      both := Or8(low, high);
    }
    bits := both;
    if count < 8 {
      var mask := Mask8(count);
      bits := And8(both, mask);
    }
    forall k | 0 <= k < 8 ensures Bit(bits, k) == (k < count && BitAt(src, 8 * ptr + shift + k)) {
      if k < count {
        BitAtByte(src, ptr, shift + k);
      }
    }
  }

  /** A byte with the bits under `mask` taken from `bits`. */
  method MergeByte(was: bv8, mask: bv8, bits: bv8) returns (now: bv8)
    ensures forall k :: 0 <= k < 8 ==> Bit(now, k) == if Bit(mask, k) then Bit(bits, k) else Bit(was, k)
  {
    var keep := Not8(mask);
    var kept := And8(was, keep);
    var set_ := And8(bits, mask);
    now := Or8(kept, set_);
  }

  /** `now` is a byte whose bits from `shift` on have been replaced by the low `count` of eight bits. */
  ghost predicate LowMerged(now: bv8, was: bv8, shift: nat, count: nat, bits: bv8)
    requires shift < 8
  {
    forall r :: 0 <= r < 8 ==> Bit(now, r) == if shift <= r < shift + count then Bit(bits, r - shift) else Bit(was, r)
  }

  /** `now` is the byte after it, holding the bits that cross over. */
  ghost predicate HighMerged(now: bv8, was: bv8, shift: nat, count: nat, bits: bv8)
    requires shift < 8 && count <= 8
  {
    forall r :: 0 <= r < 8 ==>
      Bit(now, r) == if r + 8 < shift + count then Bit(bits, r + 8 - shift) else Bit(was, r)
  }

  /** The byte holding bit `shift` after the low `count` of eight bits are stored from there on. */
  method MergeLow(was: bv8, shift: nat, count: nat, bits: bv8) returns (now: bv8)
    requires shift < 8 && 0 < count <= 8
    ensures LowMerged(now, was, shift, count, bits)
  {
    var mask := Mask8(count);
    var lowMask := Shl8(mask, shift);
    var lowBits := Shl8(bits, shift);
    now := MergeByte(was, lowMask, lowBits);
  }

  /** The byte after it, for bits that cross into it. */
  method MergeHigh(was: bv8, shift: nat, count: nat, bits: bv8) returns (now: bv8)
    requires 0 < shift < 8 && 8 - shift < count <= 8
    ensures HighMerged(now, was, shift, count, bits)
  {
    var mask := Mask8(count);
    var highMask := Shr8(mask, 8 - shift);
    var highBits := Shr8(bits, 8 - shift);
    now := MergeByte(was, highMask, highBits);
  }

  /** `now` is `was` with the low `count` of eight bits stored from bit `at` on. */
  ghost predicate Scattered(now: seq<bv8>, was: seq<bv8>, at: nat, count: nat, bits: bv8) {
    && |now| == |was|
    && forall i :: 0 <= i < 8 * |now| ==>
         BitAt(now, i) == if at <= i < at + count && i - at < 8 then Bit(bits, i - at) else BitAt(was, i)
  }

  /** Bits of the two bytes concerned, and bits elsewhere. */
  lemma ScatteredBit(now: seq<bv8>, was: seq<bv8>, ptr: nat, shift: nat, count: nat, bits: bv8, i: nat)
    requires shift < 8 && 0 < count <= 8 && 8 * ptr + shift + count <= 8 * |was| && |now| == |was| && i < 8 * |was|
    requires forall j :: 0 <= j < |was| && j != ptr && (j != ptr + 1 || shift + count <= 8) ==> now[j] == was[j]
    requires LowMerged(now[ptr], was[ptr], shift, count, bits)
    requires shift + count > 8 ==> HighMerged(now[ptr + 1], was[ptr + 1], shift, count, bits)
    ensures BitAt(now, i) == if 8 * ptr + shift <= i < 8 * ptr + shift + count
                             then Bit(bits, i - (8 * ptr + shift)) else BitAt(was, i)
  {
    if 8 * ptr <= i < 8 * ptr + 16 {
      BitAtByte(now, ptr, i - 8 * ptr);
      BitAtByte(was, ptr, i - 8 * ptr);
    } else {
      assert i / 8 != ptr && i / 8 != ptr + 1;
    }
  }

  /** Stores the low `count` of eight bits at bit `shift` of byte `ptr`. */
  method ScatterBits(dst: array<bv8>, ptr: nat, shift: nat, count: nat, bits: bv8)
    requires shift < 8 && 0 < count <= 8 && 8 * ptr + shift + count <= 8 * dst.Length
    modifies dst
    ensures Scattered(dst[..], old(dst[..]), 8 * ptr + shift, count, bits)
  {
    ghost var was := dst[..];
    var low := MergeLow(dst[ptr], shift, count, bits);
    dst[ptr] := low;
    if shift != 0 && count > 8 - shift {
      var high := MergeHigh(dst[ptr + 1], shift, count, bits);
      dst[ptr + 1] := high;
    }
    ghost var now := dst[..];
    forall i | 0 <= i < 8 * |now|
      ensures BitAt(now, i) == if 8 * ptr + shift <= i < 8 * ptr + shift + count
                               then Bit(bits, i - (8 * ptr + shift)) else BitAt(was, i)
    {
      ScatteredBit(now, was, ptr, shift, count, bits, i);
    }
  }

  /** Eight bits of the source run from bit `done` on, zeros past its end. */
  ghost predicate Gathered(bits: bv8, src: seq<bv8>, srcIndex: nat, srcLength: nat, done: nat)
    requires srcIndex + srcLength <= 8 * |src|
  {
    forall k :: 0 <= k < 8 ==> Bit(bits, k) == (done + k < srcLength && BitAt(src, srcIndex + (done + k)))
  }

  /** Copying `count` more bits extends a copied run. */
  lemma ExtendCopy(
    now: seq<bv8>, mid: seq<bv8>, was: seq<bv8>, dstIndex: nat, done: nat, count: nat, src: seq<bv8>, srcIndex: nat,
    srcLength: nat, bits: bv8)
    requires count <= 8 && dstIndex + done + count <= 8 * |was| && srcIndex + srcLength <= 8 * |src|
    requires IsCopy(mid, was, dstIndex, done, src, srcIndex, srcLength) && |now| == |mid|
    requires Gathered(bits, src, srcIndex, srcLength, done)
    requires Scattered(now, mid, dstIndex + done, count, bits)
    ensures IsCopy(now, was, dstIndex, done + count, src, srcIndex, srcLength)
  {
    forall i | 0 <= i < 8 * |now|
      ensures BitAt(now, i) == Copied(was, dstIndex, done + count, src, srcIndex, srcLength, i)
    {
      if dstIndex + done <= i < dstIndex + done + count {
        assert Bit(bits, i - (dstIndex + done)) == (i - dstIndex < srcLength && BitAt(src, srcIndex + (i - dstIndex)));
      } else {
        assert BitAt(mid, i) == Copied(was, dstIndex, done, src, srcIndex, srcLength, i);
      }
    }
  }

  /** Eight source bits that start `done` bits into the source run, zeros once it is exhausted. */
  method NextBits(src: seq<bv8>, srcIndex: nat, srcLength: nat, ghost done: nat, ptr: nat, shift: nat, count: nat)
    returns (bits: bv8)
    requires srcIndex + srcLength <= 8 * |src|
    requires count == if done < srcLength then srcLength - done else 0
    requires count > 0 ==> shift < 8 && 8 * ptr + shift == srcIndex + done
    ensures Gathered(bits, src, srcIndex, srcLength, done)
  {
    bits := 0;
    if count > 0 {
      bits := GatherBits(src, ptr, shift, count);
      forall k | 0 <= k < 8 ensures Bit(bits, k) == (done + k < srcLength && BitAt(src, srcIndex + (done + k))) {
        assert 8 * ptr + shift + k == srcIndex + (done + k);
      }
    } else {
      forall k | 0 <= k < 8 ensures !Bit(bits, k) { BitZero(k); }
    }
  }

  /** One turn of the loop: up to eight bits, `done` bits into both runs. */
  method CopyStep(
    dst: array<bv8>, ghost was: seq<bv8>, ghost dstIndex: nat, ghost done: nat, dstPtr: nat, dstShift: nat, count: nat,
    src: seq<bv8>, srcIndex: nat, srcLength: nat, srcPtr: nat, srcShift: nat, srcCount: nat)
    requires 0 < count <= 8 && dstShift < 8 && 8 * dstPtr + dstShift == dstIndex + done
    requires dstIndex + done + count <= 8 * dst.Length && srcIndex + srcLength <= 8 * |src|
    requires srcCount == if done < srcLength then srcLength - done else 0
    requires srcCount > 0 ==> srcShift < 8 && 8 * srcPtr + srcShift == srcIndex + done
    requires IsCopy(dst[..], was, dstIndex, done, src, srcIndex, srcLength)
    modifies dst
    ensures IsCopy(dst[..], was, dstIndex, done + count, src, srcIndex, srcLength)
  {
    ghost var mid := dst[..];
    var bits := NextBits(src, srcIndex, srcLength, done, srcPtr, srcShift, srcCount);
    ScatterBits(dst, dstPtr, dstShift, count, bits);
    ExtendCopy(dst[..], mid, was, dstIndex, done, count, src, srcIndex, srcLength, bits);
  }

  /** bit_copy */
  method Copy(
    dst: array<bv8>, dstIndex: nat, dstLength: nat, src: seq<bv8>, srcIndex: nat, srcLength: nat)
    requires dstIndex + dstLength <= 8 * dst.Length && srcIndex + srcLength <= 8 * |src|
    modifies dst
    ensures IsCopy(dst[..], old(dst[..]), dstIndex, dstLength, src, srcIndex, srcLength)
  {
    var dstPtr, dstShift, dstCount := dstIndex / 8, dstIndex % 8, dstLength;
    var srcPtr, srcShift, srcCount := srcIndex / 8, srcIndex % 8, srcLength;
    ghost var done := 0;
    while dstCount > 0
      invariant 0 <= dstCount && 0 <= dstPtr && 0 <= srcPtr && done + dstCount == dstLength
      invariant dstCount > 0 ==> 8 * dstPtr + dstShift == dstIndex + done
      invariant dstCount > 0 ==> srcCount == if done < srcLength then srcLength - done else 0
      invariant dstCount > 0 && srcCount > 0 ==> 8 * srcPtr + srcShift == srcIndex + done
      invariant IsCopy(dst[..], old(dst[..]), dstIndex, done, src, srcIndex, srcLength)
    {
      var count := if dstCount < 8 then dstCount else 8;
      CopyStep(dst, old(dst[..]), dstIndex, done, dstPtr, dstShift, count,
               src, srcIndex, srcLength, srcPtr, srcShift, srcCount);
      if srcCount < 8 {
        srcCount := 0;
      } else {
        srcCount := srcCount - 8;
        srcPtr := srcPtr + 1;
      }
      done := done + count;
      dstCount := if dstCount > 8 then dstCount - 8 else 0;
      dstPtr := dstPtr + 1;
    }
  }
}
