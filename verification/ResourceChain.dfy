/**
  Walking a resource template (resources.c) descriptor by descriptor, and the ConcatRes
  operator (interpreter.c), for any way of reading one descriptor.
 */
module ResourceChain {
  import opened Prelude
  import opened BitBuffer

  datatype Status = Ok | InvalidResource | NoEndTag

  /** One descriptor: where it starts, its header, and the size without the header. */
  datatype Desc = Desc(off: nat, large: bool, name: nat, size: nat)

  function Header(large: bool): nat { if large then 3 else 1 }

  function Total(d: Desc): nat { Header(d.large) + d.size }

  const END_TAG: nat := 0x0F

  predicate IsEndTag(d: Desc) { !d.large && d.name == END_TAG }

  /** How many whole bytes a number of bits makes. */
  function ByteCount(bits: nat): nat { if bits < 8 then 0 else 1 + ByteCount(bits - 8) }

  function Len(t: Buffer): nat { ByteCount(|t|) }

  /** A buffer of whole bytes. */
  predicate Whole(t: Buffer) { |t| == 8 * Len(t) }

  lemma {:induction false} ByteCountOf(n: nat)
    ensures ByteCount(8 * n) == n
  {
    if n > 0 { ByteCountOf(n - 1); }
  }

  // ----- reading descriptors -----

  /** The descriptor at an offset of a buffer, if it is one that the walk accepts. */
  type Reader = (Buffer, nat) -> Option<Desc>

  ghost predicate Sound(r: Reader) {
    forall t: Buffer, off: nat {:trigger r(t, off)} ::
      r(t, off).Some? ==> Whole(t) && r(t, off).value.off == off && off + Total(r(t, off).value) <= Len(t)
  }

  /** `u` repeats the bytes `from` to `to` of `t` at `at`. */
  predicate Repeats(t: Buffer, from: nat, to: nat, u: Buffer, at: nat) {
    from <= to && 8 * to <= |t| && 8 * (at + to - from) <= |u| && t[8 * from..8 * to] == u[8 * at..8 * (at + to - from)]
  }

  lemma Inner(t: Buffer, from: nat, to: nat, u: Buffer, at: nat, i: nat, n: nat)
    requires Repeats(t, from, to, u, at) && i + n <= 8 * (to - from)
    ensures t[8 * from + i..8 * from + i + n] == u[8 * at + i..8 * at + i + n]
  {
    Part(t, 8 * from, 8 * to, i, n);
    Part(u, 8 * at, 8 * (at + to - from), i, n);
  }

  /** A descriptor is the same wherever its bytes are. */
  ghost predicate Moves(r: Reader, t: Buffer, off: nat, u: Buffer, at: nat) {
    Whole(u) && r(t, off).Some? && Repeats(t, off, off + Total(r(t, off).value), u, at) ==>
      r(u, at) == Some(r(t, off).value.(off := at))
  }

  ghost predicate Movable(r: Reader) {
    forall t: Buffer, off: nat, u: Buffer, at: nat {:trigger Moves(r, t, off, u, at)} :: Moves(r, t, off, u, at)
  }

  // ----- the walk -----

  /** uacpi_for_each_aml_resource: its status and the descriptors it calls back on. */
  function Walk(r: Reader, t: Buffer, off: nat): (Status, seq<Desc>)
    requires Sound(r) && off <= Len(t)
    decreases Len(t) - off
  {
    if off == Len(t) then (NoEndTag, [])
    else
      match r(t, off)
      case None => (InvalidResource, [])
      case Some(d) =>
        if IsEndTag(d) then (Ok, [d])
        else
          var (s, ds) := Walk(r, t, off + Total(d));
          (s, [d] + ds)
  }

  /** The loop of the walk, with the descriptors it has called back on so far. */
  method ForEachResource(r: Reader, t: Buffer) returns (s: Status, ds: seq<Desc>)
    requires Sound(r)
    ensures s == Walk(r, t, 0).0 && ds == Walk(r, t, 0).1
  {
    var off := 0;
    ds := [];
    while off < Len(t)
      invariant off <= Len(t) && Walk(r, t, 0).0 == Walk(r, t, off).0 && Walk(r, t, 0).1 == ds + Walk(r, t, off).1
      decreases Len(t) - off
    {
      var d := r(t, off);
      if d.None? {
        return InvalidResource, ds;
      }
      ds := ds + [d.value];
      if IsEndTag(d.value) {
        return Ok, ds;
      }
      off := off + Total(d.value);
    }
    return NoEndTag, ds;
  }

  /** A list of descriptors as a successful walk finds it: adjacent, with the end tag last. */
  ghost predicate LinkOk(r: Reader, t: Buffer, ds: seq<Desc>, i: nat)
    requires i < |ds|
  {
    && r(t, ds[i].off) == Some(ds[i])
    && (IsEndTag(ds[i]) <==> i == |ds| - 1)
    && (i + 1 < |ds| ==> ds[i + 1].off == ds[i].off + Total(ds[i]))
  }

  ghost predicate Chain(r: Reader, t: Buffer, off: nat, ds: seq<Desc>) {
    ds != [] && ds[0].off == off && forall i {:trigger LinkOk(r, t, ds, i)} :: 0 <= i < |ds| ==> LinkOk(r, t, ds, i)
  }

  lemma {:induction false} WalkIsChain(r: Reader, t: Buffer, off: nat)
    requires Sound(r) && off <= Len(t) && Walk(r, t, off).0 == Ok
    ensures Chain(r, t, off, Walk(r, t, off).1)
    decreases Len(t) - off
  {
    var d, ds := r(t, off).value, Walk(r, t, off).1;
    if !IsEndTag(d) {
      var next := off + Total(d);
      WalkIsChain(r, t, next);
      var rest := Walk(r, t, next).1;
      forall i | 0 <= i < |ds| ensures LinkOk(r, t, ds, i) {
        if i > 0 { assert LinkOk(r, t, rest, i - 1); }
      }
    }
  }

  lemma {:induction false} ChainIsWalk(r: Reader, t: Buffer, off: nat, ds: seq<Desc>)
    requires Sound(r) && Chain(r, t, off, ds)
    ensures off <= Len(t) && Walk(r, t, off) == (Ok, ds)
    decreases |ds|
  {
    assert LinkOk(r, t, ds, 0);
    if |ds| > 1 {
      var rest := ds[1..];
      forall i | 0 <= i < |rest| ensures LinkOk(r, t, rest, i) { assert LinkOk(r, t, ds, i + 1); }
      ChainIsWalk(r, t, off + Total(ds[0]), rest);
      assert ds == [ds[0]] + rest;
    } else {
      assert ds == [ds[0]];
    }
  }

  function Last(ds: seq<Desc>): Desc
    requires ds != []
  {
    ds[|ds| - 1]
  }

  /** uacpi_find_aml_resource_end_tag; an empty buffer counts as a template of nothing. */
  function EndTagOffset(r: Reader, t: Buffer): (e: Option<nat>)
    requires Sound(r)
    ensures e.Some? ==> e.value <= Len(t)
  {
    if t == [] then Some(0)
    else if Walk(r, t, 0).0 != Ok then None
    else
      WalkIsChain(r, t, 0);
      var ds := Walk(r, t, 0).1;
      assert LinkOk(r, t, ds, |ds| - 1);
      Some(Last(ds).off)
  }

  function Moved(ds: seq<Desc>, shift: nat): (r: seq<Desc>)
    ensures |r| == |ds| && forall i :: 0 <= i < |ds| ==> r[i] == ds[i].(off := ds[i].off + shift)
  {
    seq(|ds|, i requires 0 <= i < |ds| => ds[i].(off := ds[i].off + shift))
  }

  lemma RepeatsWithin(t: Buffer, from: nat, to: nat, u: Buffer, at: nat, a: nat, b: nat)
    requires Repeats(t, from, to, u, at) && from <= a <= b <= to
    ensures Repeats(t, a, b, u, at + a - from)
  {
    Inner(t, from, to, u, at, 8 * (a - from), 8 * (b - a));
  }

  lemma {:induction false} ChainGrows(r: Reader, t: Buffer, off: nat, ds: seq<Desc>, i: nat, j: nat)
    requires Sound(r) && Chain(r, t, off, ds) && i < j < |ds|
    ensures ds[i].off + Total(ds[i]) <= ds[j].off
    decreases j - i
  {
    assert LinkOk(r, t, ds, i);
    if i + 1 < j { ChainGrows(r, t, off, ds, i + 1, j); }
  }

  // ----- ConcatRes -----

  /** Small item, end tag, length 1, checksum 0. */
  const END_TAG_BYTES: Buffer := [true, false, false, true, true, true, true, false] + Zeros(8)

  /** Those bytes at the end of a buffer read as an end tag. */
  ghost predicate EndsWith(r: Reader, u: Buffer, off: nat) {
    Whole(u) && off + 2 == Len(u) && u[8 * off..] == END_TAG_BYTES ==> r(u, off) == Some(Desc(off, false, END_TAG, 1))
  }

  ghost predicate ReadsEndTags(r: Reader) { forall u: Buffer, off: nat {:trigger EndsWith(r, u, off)} :: EndsWith(r, u, off) }

  /** The descriptors of a template without its end tag. */
  function Body(r: Reader, t: Buffer): seq<Desc>
    requires Sound(r)
  {
    if t == [] || Walk(r, t, 0).1 == [] then [] else Walk(r, t, 0).1[..|Walk(r, t, 0).1| - 1]
  }

  /** handle_concatenate_res. */
  function ConcatRes(r: Reader, a: Buffer, b: Buffer): (c: Option<Buffer>)
    requires Sound(r) && Whole(a) && Whole(b)
    ensures c.Some? ==> Whole(c.value)
  {
    var ea, eb := EndTagOffset(r, a), EndTagOffset(r, b);
    if ea.None? || eb.None? then None
    else
      ByteCountOf(ea.value + eb.value + 2);
      Some(a[..8 * ea.value] + b[..8 * eb.value] + END_TAG_BYTES)
  }

  /** A stretch of descriptors without an end tag that fills the bytes from `off` to `e`. */
  ghost predicate Stretch(r: Reader, t: Buffer, off: nat, e: nat, ds: seq<Desc>)
  {
    && Whole(t) && off <= e <= Len(t) && (if ds == [] then off == e else ds[0].off == off)
    && forall i {:trigger StretchOk(r, t, e, ds, i)} :: 0 <= i < |ds| ==> StretchOk(r, t, e, ds, i)
  }

  ghost predicate StretchOk(r: Reader, t: Buffer, e: nat, ds: seq<Desc>, i: nat)
    requires i < |ds|
  {
    && r(t, ds[i].off) == Some(ds[i]) && !IsEndTag(ds[i])
    && ds[i].off + Total(ds[i]) <= e && ds[i].off + Total(ds[i]) == if i + 1 < |ds| then ds[i + 1].off else e
  }

  lemma BodyStretch(r: Reader, t: Buffer)
    requires Sound(r) && Whole(t) && EndTagOffset(r, t).Some?
    ensures Stretch(r, t, 0, EndTagOffset(r, t).value, Body(r, t))
  {
    if t != [] {
      WalkIsChain(r, t, 0);
      var ds, e := Walk(r, t, 0).1, EndTagOffset(r, t).value;
      assert LinkOk(r, t, ds, |ds| - 1);
      forall i | 0 <= i < |Body(r, t)| ensures StretchOk(r, t, e, Body(r, t), i) {
        assert LinkOk(r, t, ds, i);
        ChainGrows(r, t, 0, ds, i, |ds| - 1);
      }
    }
  }

  lemma StretchMoves(r: Reader, t: Buffer, e: nat, ds: seq<Desc>, u: Buffer, at: nat)
    requires Sound(r) && Movable(r) && Whole(u) && Stretch(r, t, 0, e, ds) && Repeats(t, 0, e, u, at)
    ensures Stretch(r, u, at, at + e, Moved(ds, at))
  {
    var ms, to := Moved(ds, at), at + e;
    forall i | 0 <= i < |ms| ensures StretchOk(r, u, to, ms, i) {
      assert StretchOk(r, t, e, ds, i);
      RepeatsWithin(t, 0, e, u, at, ds[i].off, ds[i].off + Total(ds[i]));
      assert Moves(r, t, ds[i].off, u, ds[i].off + at);
    }
  }

  lemma StretchesJoin(r: Reader, u: Buffer, ds: seq<Desc>, m: nat, es: seq<Desc>, e: nat)
    requires Stretch(r, u, 0, m, ds) && Stretch(r, u, m, e, es)
    ensures Stretch(r, u, 0, e, ds + es)
  {
    var all := ds + es;
    forall i | 0 <= i < |all| ensures StretchOk(r, u, e, all, i) {
      if i < |ds| { assert StretchOk(r, u, m, ds, i); } else { assert StretchOk(r, u, e, es, i - |ds|); }
    }
  }

  lemma StretchThenEnd(r: Reader, u: Buffer, ds: seq<Desc>, e: nat)
    requires Sound(r) && Stretch(r, u, 0, e, ds) && r(u, e) == Some(Desc(e, false, END_TAG, 1))
    ensures Walk(r, u, 0) == (Ok, ds + [Desc(e, false, END_TAG, 1)])
  {
    var all := ds + [Desc(e, false, END_TAG, 1)];
    forall i | 0 <= i < |all| ensures LinkOk(r, u, all, i) {
      if i < |ds| { assert StretchOk(r, u, e, ds, i); }
    }
    ChainIsWalk(r, u, 0, all);
  }

  lemma ConcatParts(r: Reader, a: Buffer, b: Buffer)
    requires Sound(r) && Whole(a) && Whole(b) && ConcatRes(r, a, b).Some?
    ensures var ea, eb, u := EndTagOffset(r, a).value, EndTagOffset(r, b).value, ConcatRes(r, a, b).value;
            && ea + eb + 2 == Len(u) && u[8 * (ea + eb)..] == END_TAG_BYTES
            && Repeats(a, 0, ea, u, 0) && Repeats(b, 0, eb, u, ea)
  {
    var ea, eb := EndTagOffset(r, a).value, EndTagOffset(r, b).value;
    var u := ConcatRes(r, a, b).value;
    ByteCountOf(ea + eb + 2);
    assert |u| == 8 * (ea + eb + 2) && u[8 * (ea + eb)..] == END_TAG_BYTES;
    assert u[..8 * ea] == a[..8 * ea] && u[8 * ea..8 * (ea + eb)] == b[..8 * eb];
  }

  /**
    Concatenating two templates succeeds exactly if each is empty or valid, and the result is
    a valid template: the descriptors of the first, those of the second, and one end tag.
   */
  lemma ConcatResWalk(r: Reader, a: Buffer, b: Buffer)
    requires Sound(r) && Movable(r) && ReadsEndTags(r) && Whole(a) && Whole(b)
    ensures ConcatRes(r, a, b).Some? <==> (a == [] || Walk(r, a, 0).0 == Ok) && (b == [] || Walk(r, b, 0).0 == Ok)
    ensures ConcatRes(r, a, b).Some? ==>
              var ea, eb := EndTagOffset(r, a).value, EndTagOffset(r, b).value;
              Walk(r, ConcatRes(r, a, b).value, 0) == (Ok, Moved(Body(r, a), 0) + Moved(Body(r, b), ea) + [Desc(ea + eb, false, END_TAG, 1)])
  {
    if ConcatRes(r, a, b).Some? {
      ConcatResult(r, a, b);
    }
  }

  lemma ConcatResult(r: Reader, a: Buffer, b: Buffer)
    requires Sound(r) && Movable(r) && ReadsEndTags(r) && Whole(a) && Whole(b) && ConcatRes(r, a, b).Some?
    ensures var ea, eb := EndTagOffset(r, a).value, EndTagOffset(r, b).value;
            Walk(r, ConcatRes(r, a, b).value, 0) == (Ok, Moved(Body(r, a), 0) + Moved(Body(r, b), ea) + [Desc(ea + eb, false, END_TAG, 1)])
  {
    ConcatParts(r, a, b);
    ConcatStretch(r, a, b, EndTagOffset(r, a).value, EndTagOffset(r, b).value, ConcatRes(r, a, b).value);
  }

  lemma ConcatStretch(r: Reader, a: Buffer, b: Buffer, ea: nat, eb: nat, u: Buffer)
    requires Sound(r) && Movable(r) && ReadsEndTags(r) && Whole(a) && Whole(b) && Whole(u)
    requires EndTagOffset(r, a) == Some(ea) && EndTagOffset(r, b) == Some(eb)
    requires ea + eb + 2 == Len(u) && u[8 * (ea + eb)..] == END_TAG_BYTES && Repeats(a, 0, ea, u, 0) && Repeats(b, 0, eb, u, ea)
    ensures Walk(r, u, 0) == (Ok, Moved(Body(r, a), 0) + Moved(Body(r, b), ea) + [Desc(ea + eb, false, END_TAG, 1)])
  {
    BodyStretch(r, a);
    BodyStretch(r, b);
    StretchesThenEnd(r, a, ea, Body(r, a), b, eb, Body(r, b), u);
  }

  lemma StretchesThenEnd(r: Reader, a: Buffer, ea: nat, ds: seq<Desc>, b: Buffer, eb: nat, es: seq<Desc>, u: Buffer)
    requires Sound(r) && Movable(r) && ReadsEndTags(r) && Whole(u) && Stretch(r, a, 0, ea, ds) && Stretch(r, b, 0, eb, es)
    requires ea + eb + 2 == Len(u) && u[8 * (ea + eb)..] == END_TAG_BYTES && Repeats(a, 0, ea, u, 0) && Repeats(b, 0, eb, u, ea)
    ensures Walk(r, u, 0) == (Ok, Moved(ds, 0) + Moved(es, ea) + [Desc(ea + eb, false, END_TAG, 1)])
  {
    StretchMoves(r, a, ea, ds, u, 0);
    StretchMoves(r, b, eb, es, u, ea);
    StretchesJoin(r, u, Moved(ds, 0), ea, Moved(es, ea), ea + eb);
    assert EndsWith(r, u, ea + eb);
    StretchThenEnd(r, u, Moved(ds, 0) + Moved(es, ea), ea + eb);
  }
}
