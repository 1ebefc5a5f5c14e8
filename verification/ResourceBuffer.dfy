/**
  Converting whole resource templates (resources.c), each way with a pass that adds up sizes
  before the pass that writes, for any way of converting one descriptor.
 */
module ResourceBuffer {
  import opened Prelude
  import opened BitBuffer

  /** A descriptor: its bits, and whether it is an end tag. */
  datatype Item = Item(bits: Buffer, last: bool)

  /** What the iteration over native entries sees: the entry's bytes, its bytes in AML, whether it is an end tag. */
  datatype Head = Head(len: nat, aml: nat, last: bool)

  /** The conversion of single descriptors; `spills` tells those that disturb the byte behind them. */
  datatype Codec = Codec(
    ok: Item -> bool,
    len: Item -> nat,
    put: (Item, Buffer, nat) -> Option<Buffer>,
    head: (Buffer, nat) -> Option<Head>,
    back: (Buffer, nat, Buffer, nat) -> Option<Buffer>,
    spills: Item -> bool,
    cleared: Item -> Buffer,
    endTag: Buffer)

  // ----- AML to native -----

  /** accumulate_native_buffer_size. */
  function NativeTotal(c: Codec, items: seq<Item>): nat {
    if items == [] then 0 else c.len(items[0]) + NativeTotal(c, items[1..])
  }

  /** aml_resources_to_native. */
  function WriteNative(c: Codec, items: seq<Item>, m: Buffer, base: nat): Option<Buffer>
    decreases |items|
  {
    if items == [] then Some(m)
    else
      var s := c.put(items[0], m, base);
      if s.None? then None else WriteNative(c, items[1..], s.value, base + 8 * c.len(items[0]))
  }

  /** Any bigger buffer is taken for a bug. */
  const LIMIT: nat := 5 * 1024 * 1024

  /** uacpi_native_resources_from_aml, on the descriptors that its walk accepts. */
  function FromAml(c: Codec, items: seq<Item>): Option<Buffer> {
    if NativeTotal(c, items) > LIMIT then None else WriteNative(c, items, Zeros(8 * NativeTotal(c, items)), 0)
  }

  /** The two loops of that conversion. */
  method ConvertFromAml(c: Codec, items: seq<Item>) returns (r: Option<Buffer>)
    ensures r == FromAml(c, items)
  {
    var total, i := 0, 0;
    assert items[0..] == items;
    while i < |items|
      invariant 0 <= i <= |items| && NativeTotal(c, items) == total + NativeTotal(c, items[i..])
    {
      assert items[i..][1..] == items[i + 1..];
      total, i := total + c.len(items[i]), i + 1;
    }
    if total > LIMIT {
      return None;
    }
    var m, base: nat := Zeros(8 * total), 0;
    i := 0;
    while i < |items|
      invariant 0 <= i <= |items| && FromAml(c, items) == WriteNative(c, items[i..], m, base)
    {
      assert items[i..][1..] == items[i + 1..];
      var s := c.put(items[i], m, base);
      if s.None? {
        return None;
      }
      m, base, i := s.value, base + 8 * c.len(items[i]), i + 1;
    }
    return Some(m);
  }

  // ----- native to AML -----

  /** accumulate_aml_buffer_size over the entries; an end tag is counted even if there is none. */
  function AmlTotal(c: Codec, n: Buffer, base: nat): Option<nat>
    decreases |n| - base
  {
    if base >= |n| then Some(2)
    else
      match c.head(n, base)
      case None => None
      case Some(h) =>
        if h.last then Some(h.aml)
        else if h.len == 0 then None
        else
          var rest := AmlTotal(c, n, base + 8 * h.len);
          if rest.None? then None else Some(h.aml + rest.value)
  }

  /** native_resources_to_aml. */
  function WriteAml(c: Codec, n: Buffer, base: nat, a: Buffer, o: nat): Option<Buffer>
    decreases |n| - base
  {
    if base >= |n| then if o + |c.endTag| > |a| then None else Some(Put(a, o, c.endTag))
    else
      match c.head(n, base)
      case None => None
      case Some(h) =>
        var s := c.back(n, base, a, o);
        if s.None? || h.last then s
        else if h.len == 0 then None
        else WriteAml(c, n, base + 8 * h.len, s.value, o + 8 * h.aml)
  }

  /** uacpi_native_resources_to_aml. */
  function ToAmlTemplate(c: Codec, n: Buffer): Option<Buffer> {
    var total := AmlTotal(c, n, 0);
    if total.None? || total.value > LIMIT then None else WriteAml(c, n, 0, Zeros(8 * total.value), 0)
  }

  /** The loop of its sizing pass. */
  method AddUpAml(c: Codec, n: Buffer) returns (r: Option<nat>)
    ensures r == AmlTotal(c, n, 0)
  {
    var base, total := 0, 0;
    while base < |n|
      invariant AmlTotal(c, n, 0) == if AmlTotal(c, n, base).None? then None else Some(total + AmlTotal(c, n, base).value)
      decreases |n| - base
    {
      var h := c.head(n, base);
      if h.None? {
        return None;
      }
      total := total + h.value.aml;
      if h.value.last {
        return Some(total);
      }
      if h.value.len == 0 {
        return None;
      }
      base := base + 8 * h.value.len;
    }
    return Some(total + 2);
  }

  /** The loops of that conversion. */
  method ConvertToAml(c: Codec, n: Buffer) returns (r: Option<Buffer>)
    ensures r == ToAmlTemplate(c, n)
  {
    var total := AddUpAml(c, n);
    if total.None? || total.value > LIMIT {
      return None;
    }
    var a, base: nat, o: nat := Zeros(8 * total.value), 0, 0;
    while base < |n|
      invariant ToAmlTemplate(c, n) == WriteAml(c, n, base, a, o)
      decreases |n| - base
    {
      var h := c.head(n, base);
      if h.None? {
        return None;
      }
      var s := c.back(n, base, a, o);
      if s.None? || h.value.last {
        return s;
      }
      if h.value.len == 0 {
        return None;
      }
      a, base, o := s.value, base + 8 * h.value.len, o + 8 * h.value.aml;
    }
    return if o + |c.endTag| > |a| then None else Some(Put(a, o, c.endTag));
  }

  // ----- what the conversions of single descriptors must do -----

  /** `entry(i, r, base)`: what the conversion of `i` writes lies at bit `base` of `r`. */
  type EntryAt = (Item, Buffer, nat) -> bool

  ghost predicate Puts(c: Codec, entry: EntryAt, i: Item, m: Buffer, base: nat) {
    c.ok(i) && base + 8 * c.len(i) <= |m| && Blank(m, base, |m|) ==>
      var s := c.put(i, m, base);
      && s.Some? && |s.value| == |m| && entry(i, s.value, base) && Blank(s.value, base + 8 * c.len(i), |m|)
      && forall x :: 0 <= x < base ==> s.value[x] == m[x]
  }

  ghost predicate Lasts(c: Codec, entry: EntryAt, i: Item, r: Buffer, s: Buffer, base: nat) {
    c.ok(i) && entry(i, r, base) && |s| == |r| && base + 8 * c.len(i) <= |r| && (forall x :: base <= x < base + 8 * c.len(i) ==> s[x] == r[x])
    ==> entry(i, s, base)
  }

  ghost predicate Heads(c: Codec, entry: EntryAt, i: Item, n: Buffer, base: nat) {
    c.ok(i) && entry(i, n, base) ==>
      && base < |n| && c.len(i) > 0
      && exists h :: c.head(n, base) == Some(h) && h.len == c.len(i) && 8 * h.aml == |i.bits| && h.last == i.last
  }

  ghost predicate Backs(c: Codec, entry: EntryAt, i: Item, n: Buffer, base: nat, a: Buffer, o: nat) {
    c.ok(i) && entry(i, n, base) && o + |i.bits| + (if c.spills(i) then 8 else 0) <= |a| && Blank(a, o + 8, |a|) ==>
      var s := c.back(n, base, a, o);
      && s.Some? && |s.value| == |a| && |c.cleared(i)| == |i.bits| && Has(s.value, o, c.cleared(i))
      && Blank(s.value, o + |i.bits| + 8, |a|) && forall y :: 0 <= y < o ==> s.value[y] == a[y]
  }

  ghost predicate Good(c: Codec, entry: EntryAt) {
    && (forall i: Item, m: Buffer, base: nat {:trigger Puts(c, entry, i, m, base)} :: Puts(c, entry, i, m, base))
    && (forall i: Item, r: Buffer, s: Buffer, base: nat {:trigger Lasts(c, entry, i, r, s, base)} :: Lasts(c, entry, i, r, s, base))
    && (forall i: Item, n: Buffer, base: nat {:trigger Heads(c, entry, i, n, base)} :: Heads(c, entry, i, n, base))
    && (forall i: Item, n: Buffer, base: nat, a: Buffer, o: nat {:trigger Backs(c, entry, i, n, base, a, o)} :: Backs(c, entry, i, n, base, a, o))
    && (forall i: Item {:trigger c.ok(i)} :: c.ok(i) ==> |i.bits| >= 8 && (i.last ==> !c.spills(i)) && |c.cleared(i)| == |i.bits|)
  }

  // ----- whole templates -----

  predicate AllOk(c: Codec, items: seq<Item>) { forall i :: 0 <= i < |items| ==> c.ok(items[i]) }

  /** An end tag at the end and nowhere else. */
  predicate IsTemplate(c: Codec, items: seq<Item>) {
    items != [] && AllOk(c, items) && forall i :: 0 <= i < |items| ==> (items[i].last <==> i == |items| - 1)
  }

  /** The entries of the items lie one behind the other from `base` to the end. */
  ghost predicate Entries(c: Codec, entry: EntryAt, items: seq<Item>, r: Buffer, base: nat)
    decreases |items|
  {
    if items == [] then base == |r|
    else entry(items[0], r, base) && Entries(c, entry, items[1..], r, base + 8 * c.len(items[0]))
  }

  /** Writing into a blank buffer of the size that was added up lays out one entry per descriptor, in order. */
  lemma {:induction false} WritesEntries(c: Codec, entry: EntryAt, items: seq<Item>, m: Buffer, base: nat) returns (r: Buffer)
    requires Good(c, entry) && AllOk(c, items) && base + 8 * NativeTotal(c, items) == |m| && Blank(m, base, |m|)
    ensures WriteNative(c, items, m, base) == Some(r) && |r| == |m| && Entries(c, entry, items, r, base)
    ensures forall x :: 0 <= x < base ==> r[x] == m[x]
    decreases |items|
  {
    if items == [] {
      r := m;
    } else {
      assert Puts(c, entry, items[0], m, base);
      var m1 := c.put(items[0], m, base).value;
      r := WritesEntries(c, entry, items[1..], m1, base + 8 * c.len(items[0]));
      assert Lasts(c, entry, items[0], m1, r, base);
    }
  }

  /** The bytes of a template. */
  function Bits(items: seq<Item>): Buffer { if items == [] then [] else items[0].bits + Bits(items[1..]) }

  function ClearedBits(c: Codec, items: seq<Item>): Buffer {
    if items == [] then [] else c.cleared(items[0]) + ClearedBits(c, items[1..])
  }

  lemma TemplateTail(c: Codec, items: seq<Item>)
    requires IsTemplate(c, items)
    ensures c.ok(items[0]) && if |items| == 1 then items[1..] == [] && items[0].last else IsTemplate(c, items[1..]) && !items[0].last
  {
  }

  lemma {:induction false} TotalBack(c: Codec, entry: EntryAt, items: seq<Item>, r: Buffer, base: nat)
    requires Good(c, entry) && IsTemplate(c, items) && Entries(c, entry, items, r, base)
    ensures AmlTotal(c, r, base).Some? && 8 * AmlTotal(c, r, base).value == |Bits(items)|
    decreases |items|
  {
    TemplateTail(c, items);
    assert Heads(c, entry, items[0], r, base);
    if |items| > 1 {
      TotalBack(c, entry, items[1..], r, base + 8 * c.len(items[0]));
    }
  }

  lemma {:induction false} WritesBack(c: Codec, entry: EntryAt, items: seq<Item>, n: Buffer, base: nat, a: Buffer, o: nat) returns (r: Buffer)
    requires Good(c, entry) && IsTemplate(c, items) && Entries(c, entry, items, n, base)
    requires o + |Bits(items)| == |a| && Blank(a, o + 8, |a|)
    ensures WriteAml(c, n, base, a, o) == Some(r) && |r| == |a| && Has(r, o, ClearedBits(c, items))
    ensures forall y :: 0 <= y < o ==> r[y] == a[y]
    decreases |items|
  {
    TemplateTail(c, items);
    assert Heads(c, entry, items[0], n, base) && Backs(c, entry, items[0], n, base, a, o);
    if |items| > 1 {
      assert c.ok(items[1..][0]);
      var a1 := c.back(n, base, a, o).value;
      r := WritesBack(c, entry, items[1..], n, base + 8 * c.len(items[0]), a1, o + |items[0].bits|);
      HasKept(a1, r, o, c.cleared(items[0]));
      HasBoth(r, o, c.cleared(items[0]), ClearedBits(c, items[1..]));
    } else {
      r := c.back(n, base, a, o).value;
      assert ClearedBits(c, items) == c.cleared(items[0]) + [];
    }
  }

  lemma HasBoth(r: Buffer, o: nat, a: Buffer, b: Buffer)
    requires Has(r, o, a) && Has(r, o + |a|, b)
    ensures Has(r, o, a + b)
  {
    assert r[o..o + |a + b|] == r[o..o + |a|] + r[o + |a|..o + |a| + |b|];
  }

  /** A template that is converted and converted back is the template without the bits the conversion clears. */
  lemma RoundTrip(c: Codec, entry: EntryAt, items: seq<Item>)
    requires Good(c, entry) && IsTemplate(c, items) && NativeTotal(c, items) <= LIMIT && |Bits(items)| <= 8 * LIMIT
    ensures FromAml(c, items).Some? && |FromAml(c, items).value| == 8 * NativeTotal(c, items)
    ensures Entries(c, entry, items, FromAml(c, items).value, 0)
    ensures ToAmlTemplate(c, FromAml(c, items).value) == Some(ClearedBits(c, items))
  {
    var n := WritesEntries(c, entry, items, Zeros(8 * NativeTotal(c, items)), 0);
    TotalBack(c, entry, items, n, 0);
    var back := WritesBack(c, entry, items, n, 0, Zeros(8 * AmlTotal(c, n, 0).value), 0);
    ClearedLength(c, entry, items);
    assert back == back[0..|back|];
  }

  lemma {:induction false} ClearedLength(c: Codec, entry: EntryAt, items: seq<Item>)
    requires Good(c, entry) && AllOk(c, items)
    ensures |ClearedBits(c, items)| == |Bits(items)|
  {
    if items != [] { ClearedLength(c, entry, items[1..]); }
  }

  ghost predicate Unchanged(c: Codec, items: seq<Item>) { forall i :: 0 <= i < |items| ==> c.cleared(items[i]) == items[i].bits }

  /** The conversion and its inverse give the same bytes exactly if they clear no bit. */
  lemma RoundTripExact(c: Codec, entry: EntryAt, items: seq<Item>)
    requires Good(c, entry) && IsTemplate(c, items) && NativeTotal(c, items) <= LIMIT && |Bits(items)| <= 8 * LIMIT
    ensures FromAml(c, items).Some?
    ensures ToAmlTemplate(c, FromAml(c, items).value) == Some(Bits(items)) <==> Unchanged(c, items)
  {
    RoundTrip(c, entry, items);
    ClearedSame(c, entry, items);
  }

  lemma {:induction false} ClearedSame(c: Codec, entry: EntryAt, items: seq<Item>)
    requires Good(c, entry) && AllOk(c, items)
    ensures ClearedBits(c, items) == Bits(items) <==> Unchanged(c, items)
  {
    if items != [] {
      ClearedSame(c, entry, items[1..]);
      SameParts(c.cleared(items[0]), ClearedBits(c, items[1..]), items[0].bits, Bits(items[1..]));
      UnchangedTail(c, items);
    }
  }

  lemma SameParts(a: Buffer, b: Buffer, c: Buffer, d: Buffer)
    requires |a| == |c|
    ensures a + b == c + d <==> a == c && b == d
  {
    assert (a + b)[..|a|] == a && (c + d)[..|c|] == c && (a + b)[|a|..] == b && (c + d)[|c|..] == d;
  }

  lemma UnchangedTail(c: Codec, items: seq<Item>)
    requires items != []
    ensures Unchanged(c, items) <==> c.cleared(items[0]) == items[0].bits && Unchanged(c, items[1..])
  {
    assert forall k :: 0 < k < |items| ==> items[k] == items[1..][k - 1];
  }
}
