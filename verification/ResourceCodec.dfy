/** The conversion programs of resources.c as the codec of whole templates. */
module ResourceCodec {
  import opened Prelude
  import opened BitBuffer
  import opened ResourceVm
  import opened ResourceTable
  import opened ResourceEntry
  import opened ResourceBuffer

  // ----- recognising descriptors -----

  function KindByName(large: bool, name: nat): Option<Kind> {
    if large then
      if name == 0x01 then Some(Memory24) else if name == 0x02 then Some(GenericRegister)
      else if name == 0x05 then Some(Memory32) else if name == 0x06 then Some(FixedMemory32) else None
    else
      if name == 0x04 then Some(Irq) else if name == 0x05 then Some(Dma) else if name == 0x06 then Some(StartDependent)
      else if name == 0x07 then Some(EndDependent) else if name == 0x08 then Some(Io) else if name == 0x09 then Some(FixedIo)
      else if name == 0x0A then Some(FixedDma) else if name == 0x0F then Some(EndTag) else None
  }

  /** The kind and the size that a descriptor of a modelled kind announces. */
  function Recognize(b: Buffer): Option<(Kind, nat)> {
    if |b| < 8 || (b[7] && |b| < 24) then None
    else
      var name := if b[7] then Num(b[0..7]) else Num(b[3..7]);
      var size := if b[7] then Num(b[8..24]) else Num(b[0..3]);
      var k := KindByName(b[7], name);
      if k.None? || !SizeFits(k.value, size) || |b| != 8 * (HeaderSize(k.value) + size) then None else Some((k.value, size))
  }

  lemma KindByNameBack(large: bool, name: nat)
    requires KindByName(large, name).Some?
    ensures Name(KindByName(large, name).value) == name && Large(KindByName(large, name).value) == large
  {
  }

  lemma SmallHeader(b: Buffer, e: Buffer, f: Buffer)
    requires |b| >= 8 && !b[7] && e == b[0..3] && f == b[3..7]
    ensures b[..8] == e + f + [false]
  {
  }

  lemma LargeHeader(b: Buffer, e: Buffer, f: Buffer)
    requires |b| >= 24 && b[7] && e == b[0..7] && f == b[8..24]
    ensures b[..24] == e + [true] + f
  {
  }

  lemma RecognizeIsDescriptor(b: Buffer)
    requires Recognize(b).Some?
    ensures IsDescriptor(Recognize(b).value.0, Recognize(b).value.1, b)
  {
    if b[7] {
      KindByNameBack(true, Num(b[0..7]));
      EncOfNum(b[0..7]);
      EncOfNum(b[8..24]);
      LargeHeader(b, b[0..7], b[8..24]);
    } else {
      KindByNameBack(false, Num(b[3..7]));
      EncOfNum(b[0..3]);
      EncOfNum(b[3..7]);
      SmallHeader(b, b[0..3], b[3..7]);
    }
  }

  // ----- the native buffer -----

  /** The entry at bit `base`, as uacpi_for_each_resource reads it: its kind and its length in bytes. */
  function NativeAt(n: Buffer, base: nat): (r: Option<(Kind, nat)>)
    ensures r.Some? ==> base + 8 * r.value.1 <= |n| && base + 64 + 8 * Fields(r.value.0) <= |n|
  {
    if base + 64 > |n| then None
    else
      var k, len := KindOfNative(Num(n[base..base + 32])), Num(n[base + 32..base + 64]);
      if k.None? || base + 8 * len > |n| || base + 64 + 8 * Fields(k.value) > |n| then None else Some((k.value, len))
  }

  function Blanked(r: Buffer, base: nat, len: nat): Buffer
    requires base + 8 * len <= |r|
  {
    Put(r, base, Zeros(8 * len))
  }

  /** At `base` lies what the conversion of a descriptor writes into a blank buffer. */
  ghost predicate EntryIs(k: Kind, size: nat, d: Buffer, r: Buffer, base: nat)
    requires IsDescriptor(k, size, d)
  {
    base + 8 * NativeLength(k, d) <= |r| &&
    Native(NativeList(k, size), NativeType(k), NativeLength(k, d), d, Blanked(r, base, NativeLength(k, d)), base, r)
  }

  lemma EntryPut(k: Kind, size: nat, d: Buffer, m: Buffer, base: nat)
    requires IsDescriptor(k, size, d) && base + 8 * NativeLength(k, d) <= |m| && Blank(m, base, |m|)
    ensures var s := EntryToNative(k, size, d, m, base);
            && s.Some? && |s.value| == |m| && EntryIs(k, size, d, s.value, base)
            && Blank(s.value, base + 8 * NativeLength(k, d), |m|) && forall x :: 0 <= x < base ==> s.value[x] == m[x]
  {
    EntryWritten(k, size, d, m, base);
    var r := EntryToNative(k, size, d, m, base).value;
    assert Blanked(r, base, NativeLength(k, d)) == m;
  }

  lemma EntryLasts(k: Kind, size: nat, d: Buffer, r: Buffer, s: Buffer, base: nat)
    requires IsDescriptor(k, size, d) && EntryIs(k, size, d, r, base) && |s| == |r|
    requires forall x :: base <= x < base + 8 * NativeLength(k, d) ==> s[x] == r[x]
    ensures EntryIs(k, size, d, s, base)
  {
    TidyNative(k, size, d);
    ListLasts(NativeList(k, size), NativeType(k), NativeLength(k, d), d, base, r, s, 8 * (Fields(k) + Extra(k, d)));
  }

  lemma ListLasts(list: seq<Insn>, kind: nat, len: nat, d: Buffer, base: nat, r: Buffer, s: Buffer, room: nat)
    requires Tidy(list, d, room) && 64 + room <= 8 * len && base + 8 * len <= |r| == |s|
    requires Native(list, kind, len, d, Blanked(r, base, len), base, r)
    requires forall x :: base <= x < base + 8 * len ==> s[x] == r[x]
    ensures Native(list, kind, len, d, Blanked(s, base, len), base, s)
  {
    HasKept(r, s, base, Enc(kind, 32));
    HasKept(r, s, base + 32, Enc(len, 32));
    forall i | 0 <= i < |list| ensures Reads(list[i], d) && Holds(list[i], d, s, base + 64) {
      assert Proper(list[i], d, room);
      HoldsKept(list[i], d, r, s, base + 64, room);
    }
  }

  lemma {:induction false} Pow2Grows(k: nat, n: nat)
    requires k <= n
    ensures Pow2(k) <= Pow2(n)
    decreases n
  {
    if k < n { Pow2Grows(k, n - 1); }
  }

  lemma SmallNumber(v: nat)
    requires v < 256
    ensures Num(Enc(v, 32)) == v
  {
    Pow2Of8();
    Pow2Grows(8, 32);
    NumOfEnc(v, 32);
  }

  /** The iteration over the native buffer finds the kind, the length and the AML size of each entry. */
  lemma EntryRead(k: Kind, size: nat, d: Buffer, r: Buffer, base: nat)
    requires IsDescriptor(k, size, d) && EntryIs(k, size, d, r, base)
    ensures NativeAt(r, base) == Some((k, NativeLength(k, d))) && AmlSizeFor(k, r, base) == size
  {
    KindOfNativeType(k);
    SmallNumber(NativeType(k));
    SmallNumber(NativeLength(k, d));
    SizeBack(k, size, d, Blanked(r, base, NativeLength(k, d)), base, r);
  }

  // ----- the codec -----

  predicate Ok(i: Item) { Recognize(i.bits).Some? && (i.last <==> Recognize(i.bits).value.0.EndTag?) }

  function Len(i: Item): nat {
    if Recognize(i.bits).None? then 0 else RecognizeIsDescriptor(i.bits); NativeLength(Recognize(i.bits).value.0, i.bits)
  }

  function PutItem(i: Item, m: Buffer, base: nat): Option<Buffer> {
    if Recognize(i.bits).None? then None
    else
      RecognizeIsDescriptor(i.bits);
      EntryToNative(Recognize(i.bits).value.0, Recognize(i.bits).value.1, i.bits, m, base)
  }

  function HeadAt(n: Buffer, base: nat): Option<Head> {
    var e := NativeAt(n, base);
    if e.None? then None else Some(Head(e.value.1, HeaderSize(e.value.0) + AmlSizeFor(e.value.0, n, base), e.value.0.EndTag?))
  }

  function BackAt(n: Buffer, base: nat, a: Buffer, o: nat): Option<Buffer> {
    var e := NativeAt(n, base);
    if e.None? then None else EntryToAml(e.value.0, n, base, a, o)
  }

  predicate Spills(i: Item) { Recognize(i.bits).Some? && Recognize(i.bits).value.0.StartDependent? }

  /** The descriptor without the bits that no instruction carries. */
  function ClearedItem(i: Item): (c: Buffer)
    ensures |c| == |i.bits|
  {
    if Recognize(i.bits).None? then i.bits
    else
      var (k, size) := Recognize(i.bits).value;
      Cleared(AmlList(k, size), HeaderSize(k), i.bits)
  }

  function Resources(): Codec { Codec(Ok, Len, PutItem, HeadAt, BackAt, Spills, ClearedItem, HeaderBits(EndTag, 1)) }

  ghost predicate EntryOf(i: Item, r: Buffer, base: nat) {
    Recognize(i.bits).Some? &&
    (RecognizeIsDescriptor(i.bits); EntryIs(Recognize(i.bits).value.0, Recognize(i.bits).value.1, i.bits, r, base))
  }

  ghost function Entry(): EntryAt { EntryOf }

  lemma ItemPuts(i: Item, m: Buffer, base: nat)
    ensures Puts(Resources(), Entry(), i, m, base)
  {
    if Ok(i) && base + 8 * Len(i) <= |m| && Blank(m, base, |m|) {
      RecognizeIsDescriptor(i.bits);
      EntryPut(Recognize(i.bits).value.0, Recognize(i.bits).value.1, i.bits, m, base);
    }
  }

  lemma ItemLasts(i: Item, r: Buffer, s: Buffer, base: nat)
    ensures Lasts(Resources(), Entry(), i, r, s, base)
  {
    if Ok(i) && EntryOf(i, r, base) && |s| == |r| && (forall x :: base <= x < base + 8 * Len(i) ==> s[x] == r[x]) {
      RecognizeIsDescriptor(i.bits);
      EntryLasts(Recognize(i.bits).value.0, Recognize(i.bits).value.1, i.bits, r, s, base);
    }
  }

  lemma ItemHeads(i: Item, n: Buffer, base: nat)
    ensures Heads(Resources(), Entry(), i, n, base)
  {
    if Ok(i) && EntryOf(i, n, base) {
      RecognizeIsDescriptor(i.bits);
      EntryRead(Recognize(i.bits).value.0, Recognize(i.bits).value.1, i.bits, n, base);
      var h := HeadAt(n, base).value;
      assert Resources().head(n, base) == Some(h);
    }
  }

  lemma ItemBacks(i: Item, n: Buffer, base: nat, a: Buffer, o: nat)
    ensures Backs(Resources(), Entry(), i, n, base, a, o)
  {
    if Ok(i) && EntryOf(i, n, base) && o + |i.bits| + (if Spills(i) then 8 else 0) <= |a| && Blank(a, o + 8, |a|) {
      RecognizeIsDescriptor(i.bits);
      var (k, size) := Recognize(i.bits).value;
      EntryRead(k, size, i.bits, n, base);
      EntryBack(k, size, i.bits, Blanked(n, base, NativeLength(k, i.bits)), base, n, a, o);
    }
  }

  /** The programs convert single descriptors as the codec of whole templates needs it. */
  lemma ResourcesAreGood()
    ensures Good(Resources(), Entry())
  {
    forall i: Item, m: Buffer, base: nat ensures Puts(Resources(), Entry(), i, m, base) { ItemPuts(i, m, base); }
    forall i: Item, r: Buffer, s: Buffer, base: nat ensures Lasts(Resources(), Entry(), i, r, s, base) { ItemLasts(i, r, s, base); }
    forall i: Item, n: Buffer, base: nat ensures Heads(Resources(), Entry(), i, n, base) { ItemHeads(i, n, base); }
    forall i: Item, n: Buffer, base: nat, a: Buffer, o: nat ensures Backs(Resources(), Entry(), i, n, base, a, o) { ItemBacks(i, n, base, a, o); }
  }
}
