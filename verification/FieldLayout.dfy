/**
  Where the fields of a Field list lie (interpreter.c), and what reads and writes of
  them mean together: the access-unit machinery is a flat bit array.
 */
module FieldLayout {
  import opened Prelude
  import opened Bits
  import opened BitCopy
  import opened BufferField
  import opened FieldUnit

  // ----- a region of field units is a flat bit array -----

  /** A Preserve write is a bit copy: exactly the field's bits change. */
  lemma PreserveIsFlat(now: seq<bv8>, was: seq<bv8>, f: Field, src: seq<bv8>)
    requires f.Valid() && f.rule.Preserve? && f.byteOffset + WriteSpan(f) <= |was|
    requires IsWritten(now, was, f, src, WriteSpan(f))
    ensures IsCopy(now, was, f.Start(), f.bitLength, src, 0, 8 * |src|)
  {
    forall q | 0 <= q < 8 * |now| ensures BitAt(now, q) == Copied(was, f.Start(), f.bitLength, src, 0, 8 * |src|, q) {
      assert BitAt(now, q) == WrittenBit(was, f, src, WriteSpan(f), q);
      if f.Start() <= q < f.End() {
        assert 0 + (q - f.Start()) == q - f.Start();
      }
    }
  }

  /** Reading a field just written gives the source, cut or zero-extended; the rule does not matter. */
  lemma FieldWriteThenRead(
    m0: seq<bv8>, m1: seq<bv8>, d0: seq<bv8>, d1: seq<bv8>, f: Field, src: seq<bv8>, i: nat)
    requires f.Valid() && f.bitLength > 0 && f.byteOffset + WriteSpan(f) <= |m0|
    requires IsWritten(m1, m0, f, src, WriteSpan(f))
    requires IsCopy(d1, d0, 0, 8 * |d0|, m1, f.Start(), f.bitLength) && i < 8 * |d1|
    ensures BitAt(d1, i) == (i < f.bitLength && i < 8 * |src| && BitAt(src, i))
  {
    assert BitAt(d1, i) == Copied(d0, 0, 8 * |d0|, m1, f.Start(), f.bitLength, i);
    if i < f.bitLength {
      var q := f.Start() + i;
      assert BitAt(m1, q) == WrittenBit(m0, f, src, WriteSpan(f), q);
      assert q - f.Start() == i;
    }
  }

  /** A Preserve write to one field does not change what reading a disjoint field returns. */
  lemma DisjointFieldsIndependent(
    m0: seq<bv8>, m1: seq<bv8>, f: Field, src: seq<bv8>, bytes: nat, g: Field, d: seq<bv8>, d0: seq<bv8>, d1: seq<bv8>)
    requires f.Valid() && f.rule.Preserve? && g.Valid() && g.End() <= 8 * |m0|
    requires f.End() <= g.Start() || g.End() <= f.Start()
    requires IsWritten(m1, m0, f, src, bytes)
    requires IsCopy(d0, d, 0, 8 * |d|, m0, g.Start(), g.bitLength)
    requires IsCopy(d1, d, 0, 8 * |d|, m1, g.Start(), g.bitLength)
    ensures d0 == d1
  {
    forall i | 0 <= i < 8 * |d| ensures BitAt(d0, i) == BitAt(d1, i) {
      assert BitAt(d0, i) == Copied(d, 0, 8 * |d|, m0, g.Start(), g.bitLength, i);
      assert BitAt(d1, i) == Copied(d, 0, 8 * |d|, m1, g.Start(), g.bitLength, i);
      if i < g.bitLength {
        var q := g.Start() + i;
        assert BitAt(m1, q) == WrittenBit(m0, f, src, bytes, q);
      }
    }
    SameBits(d0, d1);
  }

  // ----- the Field list -----

  /** Elements of a field list; connections do not affect layout. */
  datatype Item =
    | Named(length: nat)
    | Reserved(length: nat)
    | AccessField(accessType: nat)

  /** The ranges [start, start + length) of the named fields when the list starts at bit `at`. */
  function Ranges(items: seq<Item>, at: nat): seq<(nat, nat)> {
    if items == [] then []
    else match items[0]
      case Named(n) => [(at, n)] + Ranges(items[1..], at + n)
      case Reserved(n) => Ranges(items[1..], at + n)
      case AccessField(_) => Ranges(items[1..], at)
  }

  function WidthOf(accessType: nat): Option<nat> {
    if accessType == 0 || accessType == 1 || accessType == 5 then Some(1)
    else if accessType == 2 then Some(2)
    else if accessType == 3 then Some(4)
    else if accessType == 4 then Some(8)
    else None
  }

  /** Every named field is declared under an access type that has a width. */
  predicate WidthsKnown(items: seq<Item>, accessType: nat) {
    items != [] ==>
      match items[0]
      case Named(_) => WidthOf(accessType).Some? && WidthsKnown(items[1..], accessType)
      case Reserved(_) => WidthsKnown(items[1..], accessType)
      case AccessField(t) => WidthsKnown(items[1..], t)
  }

  /** UACPI_ALIGN_DOWN for the access widths */
  function AlignDown(x: nat, width: nat): nat {
    if width == 2 then x / 2 * 2 else if width == 4 then x / 4 * 4 else if width == 8 then x / 8 * 8 else x
  }

  /** bit & (width * 8 - 1) */
  function InUnit(bit: nat, width: nat): nat {
    if width == 2 then bit % 16 else if width == 4 then bit % 32 else if width == 8 then bit % 64 else bit % 8
  }

  lemma Aligned16(bit: nat)
    ensures 8 * (bit / 8 / 2 * 2) + bit % 16 == bit
  {
    assert bit / 8 / 2 == bit / 16;
  }

  lemma Aligned32(bit: nat)
    ensures 8 * (bit / 8 / 4 * 4) + bit % 32 == bit
  {
    assert bit / 8 / 4 == bit / 32;
  }

  lemma Aligned64(bit: nat)
    ensures 8 * (bit / 8 / 8 * 8) + bit % 64 == bit
  {
    assert bit / 8 / 8 == bit / 64;
  }

  /** The aligned byte offset and the in-unit offset together locate the same bit. */
  lemma AlignedStart(bit: nat, width: nat)
    ensures 8 * AlignDown(bit / 8, width) + InUnit(bit, width) == bit
  {
    if width == 2 {
      Aligned16(bit);
    } else if width == 4 {
      Aligned32(bit);
    } else if width == 8 {
      Aligned64(bit);
    }
  }

  /** Byte offsets have 32 bits, so the start of a field is kept up to this many bits. */
  const WRAP: nat := 0x8_0000_0000

  lemma Truncated8(a: nat, r: nat)
    requires r < 8
    ensures 8 * (a % 0x1_0000_0000) + r == (8 * a + r) % WRAP
  {
    var high := a / 0x1_0000_0000;
    assert 8 * a + r == WRAP * high + (8 * (a % 0x1_0000_0000) + r);
  }

  lemma Truncated16(a: nat, r: nat)
    requires r < 16
    ensures 8 * (a * 2 % 0x1_0000_0000) + r == (8 * (a * 2) + r) % WRAP
  {
    var high, low := a / 0x8000_0000, a % 0x8000_0000;
    assert a * 2 == 0x1_0000_0000 * high + 2 * low;
    assert 8 * (a * 2) + r == WRAP * high + (16 * low + r);
  }

  lemma Truncated32(a: nat, r: nat)
    requires r < 32
    ensures 8 * (a * 4 % 0x1_0000_0000) + r == (8 * (a * 4) + r) % WRAP
  {
    var high, low := a / 0x4000_0000, a % 0x4000_0000;
    assert a * 4 == 0x1_0000_0000 * high + 4 * low;
    assert 8 * (a * 4) + r == WRAP * high + (32 * low + r);
  }

  lemma Truncated64(a: nat, r: nat)
    requires r < 64
    ensures 8 * (a * 8 % 0x1_0000_0000) + r == (8 * (a * 8) + r) % WRAP
  {
    var high, low := a / 0x2000_0000, a % 0x2000_0000;
    assert a * 8 == 0x1_0000_0000 * high + 8 * low;
    assert 8 * (a * 8) + r == WRAP * high + (64 * low + r);
  }

  /** A 32-bit byte offset locates the bit up to the wrap-around. */
  lemma TruncatedStart(bit: nat, width: nat)
    requires width == 1 || width == 2 || width == 4 || width == 8
    ensures 8 * (AlignDown(bit / 8, width) % 0x1_0000_0000) + InUnit(bit, width) == bit % WRAP
  {
    AlignedStart(bit, width);
    if width == 1 {
      Truncated8(bit / 8, bit % 8);
    } else if width == 2 {
      Truncated16(bit / 8 / 2, bit % 16);
    } else if width == 4 {
      Truncated32(bit / 8 / 4, bit % 32);
    } else {
      Truncated64(bit / 8 / 8, bit % 64);
    }
  }

  method PlaceField(bitOffset: nat, length: nat, width: nat, rule: UpdateRule) returns (f: Field)
    requires width == 1 || width == 2 || width == 4 || width == 8
    ensures f.Valid() && f.Start() == bitOffset % WRAP && f.bitLength == length && f.width == width && f.rule == rule
  {
    TruncatedStart(bitOffset, width);
    f := Field(AlignDown(bitOffset / 8, width) % 0x1_0000_0000, InUnit(bitOffset, width), length, width, rule);
  }

  /** The fields lie where the ranges say, up to the wrap-around. */
  ghost predicate Occupies(fields: seq<Field>, ranges: seq<(nat, nat)>) {
    |fields| == |ranges|
    && forall i :: 0 <= i < |fields| ==> fields[i].Valid() && fields[i].Start() == ranges[i].0 % WRAP && fields[i].bitLength == ranges[i].1
  }

  /** update_rule, the two bits that follow the lock rule. */
  function RuleOf(bits: nat): UpdateRule {
    if bits == 0 then Preserve else if bits == 1 then WriteAsOnes else if bits == 2 then WriteAsZeroes else Unknown
  }

  /** handle_create_field: `None` is AML_BAD_ENCODING, met at the first field of unknown width. */
  method CreateFields(items: seq<Item>, accessType: nat, ruleBits: nat) returns (r: Option<seq<Field>>)
    ensures r.Some? <==> WidthsKnown(items, accessType)
    ensures r.Some? ==> Occupies(r.value, Ranges(items, 0)) && forall i :: 0 <= i < |r.value| ==> r.value[i].rule == RuleOf(ruleBits)
  {
    var rule := RuleOf(ruleBits);
    var i, bitOffset: nat, access: nat := 0, 0, accessType;
    var fields: seq<Field> := [];
    ghost var ranges: seq<(nat, nat)> := [];
    while i < |items|
      invariant 0 <= i <= |items|
      invariant Occupies(fields, ranges) && Ranges(items, 0) == ranges + Ranges(items[i..], bitOffset)
      invariant WidthsKnown(items, accessType) == WidthsKnown(items[i..], access)
      invariant forall j :: 0 <= j < |fields| ==> fields[j].rule == rule
    {
      assert items[i..][0] == items[i] && items[i..][1..] == items[i + 1..];
      match items[i] {
        case Named(n) =>
          var width := WidthOf(access);
          if width.None? {
            return None;
          }
          var f := PlaceField(bitOffset, n, width.value, rule);
          fields := fields + [f];
          assert ranges + ([(bitOffset, n)] + Ranges(items[i + 1..], bitOffset + n))
              == ranges + [(bitOffset, n)] + Ranges(items[i + 1..], bitOffset + n);
          ranges := ranges + [(bitOffset, n)];
          bitOffset := bitOffset + n;
        case Reserved(n) => bitOffset := bitOffset + n;
        case AccessField(t) => access := t;
      }
      i := i + 1;
    }
    assert items[i..] == [];
    assert ranges + [] == ranges;
    r := Some(fields);
  }

  /** The ranges start at `at` or later, come in order and do not overlap. */
  ghost predicate InOrder(rs: seq<(nat, nat)>, at: nat) {
    && (forall i :: 0 <= i < |rs| ==> at <= rs[i].0)
    && (forall i, j :: 0 <= i < j < |rs| ==> rs[i].0 + rs[i].1 <= rs[j].0)
  }

  lemma {:induction false} RangesInOrder(items: seq<Item>, at: nat)
    ensures InOrder(Ranges(items, at), at)
  {
    if items != [] {
      match items[0]
      case Named(n) => RangesInOrder(items[1..], at + n);
      case Reserved(n) => RangesInOrder(items[1..], at + n);
      case AccessField(_) => RangesInOrder(items[1..], at);
    }
  }

  /** The fields lie exactly where the list says if and only if none of them starts at the wrap-around or later. */
  lemma LayoutExact(items: seq<Item>, fields: seq<Field>)
    requires Occupies(fields, Ranges(items, 0))
    ensures (forall i :: 0 <= i < |fields| ==> fields[i].Start() == Ranges(items, 0)[i].0)
       <==> (forall i :: 0 <= i < |fields| ==> Ranges(items, 0)[i].0 < WRAP)
  {
    var rs := Ranges(items, 0);
    forall i | 0 <= i < |fields| ensures fields[i].Start() == rs[i].0 <==> rs[i].0 < WRAP { }
  }

  /** Two fields of one list that start below it never share a bit, so writing one leaves the other's reads alone. */
  lemma ListFieldsIndependent(
    items: seq<Item>, fields: seq<Field>, i: nat, j: nat,
    m0: seq<bv8>, m1: seq<bv8>, src: seq<bv8>, bytes: nat, d: seq<bv8>, d0: seq<bv8>, d1: seq<bv8>)
    requires Occupies(fields, Ranges(items, 0)) && i < |fields| && j < |fields| && i != j
    requires Ranges(items, 0)[i].0 < WRAP && Ranges(items, 0)[j].0 < WRAP
    requires fields[i].rule.Preserve? && fields[j].End() <= 8 * |m0|
    requires IsWritten(m1, m0, fields[i], src, bytes)
    requires IsCopy(d0, d, 0, 8 * |d|, m0, fields[j].Start(), fields[j].bitLength)
    requires IsCopy(d1, d, 0, 8 * |d|, m1, fields[j].Start(), fields[j].bitLength)
    ensures d0 == d1
  {
    RangesInOrder(items, 0);
    var lo, hi := if i < j then i else j, if i < j then j else i;
    assert fields[lo].End() == Ranges(items, 0)[lo].0 + Ranges(items, 0)[lo].1 <= fields[hi].Start();
    DisjointFieldsIndependent(m0, m1, fields[i], src, bytes, fields[j], d, d0, d1);
  }

  // ----- a list that wraps -----

  /** The longest gap that the list below uses fits the package length format. */
  const GAP: nat := 0x800_0000

  function Gaps(k: nat): seq<Item> { if k == 0 then [Named(8)] else [Reserved(GAP)] + Gaps(k - 1) }

  lemma {:induction false} GapsRanges(k: nat, at: nat)
    ensures Ranges(Gaps(k), at) == [(at + k * GAP, 8)]
    decreases k
  {
    if k > 0 {
      assert Gaps(k)[1..] == Gaps(k - 1);
      GapsRanges(k - 1, at + GAP);
    }
  }

  /** A field of sixteen bits, gaps that add up to the wrap-around, and a field of eight: it lands on the first. */
  lemma WrappedFieldsOverlap(fields: seq<Field>)
    requires Occupies(fields, Ranges([Named(16), Reserved(GAP - 16)] + Gaps(255), 0))
    ensures |fields| == 2 && fields[0].Start() == 0 == fields[1].Start() && fields[0].bitLength == 16 && fields[1].bitLength == 8
  {
    var items := [Named(16), Reserved(GAP - 16)] + Gaps(255);
    GapsRanges(255, GAP);
    assert items[1..][1..] == Gaps(255);
    assert Ranges(items[1..], 16) == Ranges(Gaps(255), GAP);
    assert Ranges(items, 0) == [(0, 16)] + [(WRAP, 8)];
  }
}
