/** Templates of the modelled kinds, from bytes to the native buffer and back to bytes. */
module ResourceTheorems {
  import opened Prelude
  import opened BitBuffer
  import opened ResourceVm
  import opened ResourceTable
  import opened ResourceEntry
  import opened ResourceBuffer
  import opened ResourceCodec
  import ResourceChain
  import ResourceWalk

  type Desc = ResourceChain.Desc

  function ItemOf(t: Buffer, d: Desc): Item
    requires 8 * (d.off + ResourceChain.Total(d)) <= |t|
  {
    Item(t[8 * d.off..8 * (d.off + ResourceChain.Total(d))], ResourceChain.IsEndTag(d))
  }

  predicate Modelled(d: Desc) { KindByName(d.large, d.name).Some? }

  // ----- every accepted descriptor of a modelled kind is recognised -----

  lemma SpecMatches(large: bool, name: nat)
    requires KindByName(large, name).Some?
    ensures var k := KindByName(large, name).value;
            ResourceWalk.SpecOf(large, name) ==
            Some(ResourceWalk.Spec(AmlSize(k), if MayBeShorter(k) then ResourceWalk.FixedOrOneLess else ResourceWalk.Fixed))
  {
  }

  lemma DescRecognized(t: Buffer, d: Desc)
    requires ResourceChain.Whole(t) && d.off < ResourceChain.Len(t) && ResourceWalk.DescAt(t, d.off) == Some(d) && Modelled(d)
    ensures 8 * (d.off + ResourceChain.Total(d)) <= |t| && Ok(ItemOf(t, d))
  {
    SpecMatches(d.large, d.name);
    KindByNameBack(d.large, d.name);
    HeaderMoves(t, d.off, d);
  }

  lemma HeaderMoves(t: Buffer, off: nat, d: Desc)
    requires ResourceChain.Whole(t) && off < ResourceChain.Len(t) && ResourceWalk.DescAt(t, off) == Some(d)
    ensures var b := ItemOf(t, d).bits;
            && |b| >= 8 && b[7] == d.large
            && (d.large ==> |b| >= 24 && Num(b[0..7]) == d.name && Num(b[8..24]) == d.size)
            && (!d.large ==> Num(b[3..7]) == d.name && Num(b[0..3]) == d.size)
  {
    var from, to := 8 * off, 8 * (off + ResourceChain.Total(d));
    if d.large {
      Part(t, from, to, 0, 7);
      Part(t, from, to, 8, 16);
    } else {
      Part(t, from, to, 3, 4);
      Part(t, from, to, 0, 3);
    }
  }

  // ----- the items of a template -----

  function ItemsOf(t: Buffer, ds: seq<Desc>): (items: seq<Item>)
    requires forall i :: 0 <= i < |ds| ==> 8 * (ds[i].off + ResourceChain.Total(ds[i])) <= |t|
    ensures |items| == |ds|
  {
    if ds == [] then [] else [ItemOf(t, ds[0])] + ItemsOf(t, ds[1..])
  }

  predicate Fit(t: Buffer, ds: seq<Desc>) { forall i :: 0 <= i < |ds| ==> 8 * (ds[i].off + ResourceChain.Total(ds[i])) <= |t| }

  lemma {:induction false} ItemsOfAt(t: Buffer, ds: seq<Desc>, i: nat)
    requires Fit(t, ds) && i < |ds|
    ensures ItemsOf(t, ds)[i] == ItemOf(t, ds[i])
    decreases i
  {
    if i > 0 { ItemsOfAt(t, ds[1..], i - 1); }
  }

  /** What a successful walk finds fits the buffer, ends with the only end tag, and leaves no gap. */
  lemma {:induction false} ChainItems(r: ResourceChain.Reader, t: Buffer, off: nat, ds: seq<Desc>)
    requires ResourceChain.Sound(r) && ResourceChain.Chain(r, t, off, ds)
    ensures Fit(t, ds) && off <= ResourceChain.Last(ds).off
    ensures Bits(ItemsOf(t, ds)) == t[8 * off..8 * (ResourceChain.Last(ds).off + ResourceChain.Total(ResourceChain.Last(ds)))]
    decreases |ds|
  {
    forall i | 0 <= i < |ds| ensures 8 * (ds[i].off + ResourceChain.Total(ds[i])) <= |t| { assert ResourceChain.LinkOk(r, t, ds, i); }
    assert ResourceChain.LinkOk(r, t, ds, 0);
    var end := 8 * (ResourceChain.Last(ds).off + ResourceChain.Total(ResourceChain.Last(ds)));
    if |ds| > 1 {
      var rest := ds[1..];
      forall i | 0 <= i < |rest| ensures ResourceChain.LinkOk(r, t, rest, i) { assert ResourceChain.LinkOk(r, t, ds, i + 1); }
      ChainItems(r, t, ds[1].off, rest);
      ResourceChain.ChainGrows(r, t, off, ds, 0, |ds| - 1);
      JoinSlices(t, 8 * off, 8 * ds[1].off, end);
    } else {
      assert ds[1..] == [] && Bits(ItemsOf(t, ds)) == ItemOf(t, ds[0]).bits + [];
    }
  }

  lemma JoinSlices(t: Buffer, a: nat, b: nat, c: nat)
    requires a <= b <= c <= |t|
    ensures t[a..b] + t[b..c] == t[a..c]
  {
  }

  /** The template up to and including its end tag. */
  function Accepted(t: Buffer, ds: seq<Desc>): Buffer
    requires ds != [] && 8 * (ResourceChain.Last(ds).off + ResourceChain.Total(ResourceChain.Last(ds))) <= |t|
  {
    t[..8 * (ResourceChain.Last(ds).off + ResourceChain.Total(ResourceChain.Last(ds)))]
  }

  lemma WalkedTemplate(t: Buffer, ds: seq<Desc>)
    requires ResourceChain.Whole(t) && ResourceChain.Sound(ResourceWalk.Read()) && ResourceChain.Walk(ResourceWalk.Read(), t, 0) == (ResourceChain.Ok, ds)
    requires forall i :: 0 <= i < |ds| ==> Modelled(ds[i])
    ensures ds != [] && Fit(t, ds) && IsTemplate(Resources(), ItemsOf(t, ds)) && Bits(ItemsOf(t, ds)) == Accepted(t, ds)
  {
    var r := ResourceWalk.Read();
    ResourceChain.WalkIsChain(r, t, 0);
    ChainItems(r, t, 0, ds);
    var items := ItemsOf(t, ds);
    forall i | 0 <= i < |items| ensures Resources().ok(items[i]) && (items[i].last <==> i == |items| - 1) {
      assert ResourceChain.LinkOk(r, t, ds, i);
      ItemsOfAt(t, ds, i);
      DescRecognized(t, ds[i]);
    }
  }

  /**
    A template of modelled descriptors that the walk accepts is converted and converted back
    to the same bytes exactly if no descriptor has a bit set that the programs do not carry.
   */
  lemma TemplateRoundTrip(t: Buffer, ds: seq<Desc>)
    requires ResourceChain.Whole(t) && ResourceChain.Sound(ResourceWalk.Read()) && ResourceChain.Walk(ResourceWalk.Read(), t, 0) == (ResourceChain.Ok, ds)
    requires forall i :: 0 <= i < |ds| ==> Modelled(ds[i])
    requires Fit(t, ds) && NativeTotal(Resources(), ItemsOf(t, ds)) <= LIMIT && |t| <= 8 * LIMIT
    ensures ds != [] && FromAml(Resources(), ItemsOf(t, ds)).Some?
    ensures var n := FromAml(Resources(), ItemsOf(t, ds)).value;
            && |n| == 8 * NativeTotal(Resources(), ItemsOf(t, ds)) && Entries(Resources(), Entry(), ItemsOf(t, ds), n, 0)
            && ToAmlTemplate(Resources(), n) == Some(ClearedBits(Resources(), ItemsOf(t, ds)))
            && (ToAmlTemplate(Resources(), n) == Some(Accepted(t, ds)) <==> Unchanged(Resources(), ItemsOf(t, ds)))
  {
    WalkedTemplate(t, ds);
    ResourcesAreGood();
    RoundTrip(Resources(), Entry(), ItemsOf(t, ds));
    RoundTripExact(Resources(), Entry(), ItemsOf(t, ds));
  }

  // ----- the bits that are not carried -----

  /** Bits of a descriptor that section 6.4 reserves, and the checksum of the end tag. */
  predicate Reserved(k: Kind, x: nat) {
    match k
    case Irq => x == 25 || x == 26 || x == 30 || x == 31
    case Dma => x == 19 || x == 20 || x == 23
    case StartDependent => 12 <= x < 16
    case Io => 9 <= x < 16
    case EndTag => 8 <= x < 16
    case Memory24 => 25 <= x < 32
    case Memory32 => 25 <= x < 32
    case FixedMemory32 => 25 <= x < 32
    case _ => false
  }

  lemma CarriedFlags(k: Kind, size: nat, x: nat)
    requires (k.Irq? || k.Dma? || k.StartDependent?) && SizeFits(k, size) && 8 * HeaderSize(k) <= x < 8 * (HeaderSize(k) + size)
    ensures Carried(AmlList(k, size), x) <==> !Reserved(k, x)
  {
    var l := AmlList(k, size);
    assert !Reserved(k, x) ==> exists j :: 0 <= j < |l| && Carries(l[j], x) by {
      if k.Irq? {
        assert l[0] == IRQ_MASK;
        if x >= 24 { assert l[1] == IRQ_FLAGS[0] && l[2] == IRQ_FLAGS[1] && l[3] == IRQ_FLAGS[2] && l[4] == IRQ_FLAGS[3]; }
      } else if k.Dma? {
        assert Carries(l[0], x) || Carries(l[1], x) || Carries(l[2], x) || Carries(l[3], x) || Reserved(k, x);
      } else {
        assert Carries(l[0], x) || Carries(l[1], x) || Reserved(k, x);
      }
    }
  }

  lemma CarriedFields(k: Kind, x: nat)
    requires !k.Irq? && !k.Dma? && !k.StartDependent? && 8 * HeaderSize(k) <= x < 8 * (HeaderSize(k) + AmlSize(k))
    ensures Carried(AmlList(k, AmlSize(k)), x) <==> !Reserved(k, x)
  {
    var l := Moves(k);
    if |l| > 0 && Carries(l[0], x) {
    } else if |l| > 1 && Carries(l[1], x) {
    } else if |l| > 2 && Carries(l[2], x) {
    } else if |l| > 3 && Carries(l[3], x) {
    } else if |l| > 4 && Carries(l[4], x) {
    }
  }

  /** The programs carry every bit behind the header except the reserved ones. */
  lemma CarriedExactly(k: Kind, size: nat, x: nat)
    requires SizeFits(k, size) && 8 * HeaderSize(k) <= x < 8 * (HeaderSize(k) + size)
    ensures Carried(AmlList(k, size), x) <==> !Reserved(k, x)
  {
    if k.Irq? || k.Dma? || k.StartDependent? {
      CarriedFlags(k, size, x);
    } else {
      CarriedFields(k, x);
    }
  }

  /** So a descriptor comes back unchanged exactly if its reserved bits, or its checksum, are zero. */
  lemma UnchangedMeansReservedZero(i: Item)
    requires Ok(i)
    ensures var (k, size) := Recognize(i.bits).value;
            ClearedItem(i) == i.bits <==> forall x :: 8 * HeaderSize(k) <= x < |i.bits| && Reserved(k, x) ==> !i.bits[x]
  {
    var (k, size) := Recognize(i.bits).value;
    var c := ClearedItem(i);
    forall x | 8 * HeaderSize(k) <= x < |i.bits| ensures c[x] == (!Reserved(k, x) && i.bits[x]) { CarriedExactly(k, size, x); }
    if forall x :: 8 * HeaderSize(k) <= x < |i.bits| && Reserved(k, x) ==> !i.bits[x] {
      assert forall x :: 0 <= x < |c| ==> c[x] == i.bits[x];
    }
  }
}
