/**
  The conversion instructions of resources.c: small programs that move the fields of one
  resource descriptor from AML to a native structure and back.
 */
module ResourceVm {
  import opened Prelude
  import opened BitBuffer

  /** Offsets are in bytes; those of native fields start after the 8 byte header. */
  datatype Insn =
    | End
    | Packed(aml: nat, native: nat, count: nat, width: nat)
    | BitField(aml: nat, native: nat, width: nat, shift: nat)
    | Field(aml: nat, native: nat, bytes: nat, times: nat)
    | SkipIfLess(limit: nat, skip: nat)
    | SetTo(aml: nat, native: nat, value: nat)

  type Program = seq<Insn>

  /** How many bits a field instruction copies; the accumulator is zero before it here. */
  function Length(i: Insn): nat
    requires i.Field?
  {
    8 * i.bytes * (if i.times == 0 || i.times == 0xFF then 1 else i.times)
  }

  // ----- packed arrays -----

  /** The positions of the set bits, from `k` on. */
  function Positions(mask: Buffer, k: nat): (ps: seq<nat>)
    requires k <= |mask|
    ensures forall i :: 0 <= i < |ps| ==> k <= ps[i] < |mask| && mask[ps[i]]
    ensures |ps| <= |mask| - k
    decreases |mask| - k
  {
    if k == |mask| then [] else (if mask[k] then [k] else []) + Positions(mask, k + 1)
  }

  lemma {:induction false} PositionsComplete(mask: Buffer, k: nat, x: nat)
    requires k <= x < |mask| && mask[x]
    ensures x in Positions(mask, k)
    decreases |mask| - k
  {
    if k < x { PositionsComplete(mask, k + 1, x); }
  }

  function Bytes(ps: seq<nat>): (b: Buffer)
    ensures |b| == 8 * |ps|
  {
    if ps == [] then [] else Enc(ps[0], 8) + Bytes(ps[1..])
  }

  lemma {:induction false} BytesAt(ps: seq<nat>, i: nat)
    requires i < |ps|
    ensures Bytes(ps)[8 * i..8 * i + 8] == Enc(ps[i], 8)
  {
    if i == 0 {
      assert Bytes(ps)[..8] == Enc(ps[0], 8);
    } else {
      BytesAt(ps[1..], i - 1);
      BehindFirst(Enc(ps[0], 8), Bytes(ps[1..]), 8 * (i - 1), 8 * (i - 1) + 8);
    }
  }

  lemma BehindFirst(a: Buffer, b: Buffer, from: nat, to: nat)
    requires from <= to <= |b|
    ensures (a + b)[|a| + from..|a| + to] == b[from..to]
  {
  }

  /** The byte `k` of a buffer, counted from bit `at`. */
  function ByteAt(m: Buffer, at: nat, k: nat): nat
    requires at + 8 * k + 8 <= |m|
  {
    Num(m[at + 8 * k..at + 8 * k + 8])
  }

  /** The mask whose bits are the values of an array of `n` bytes at `at`. */
  function MaskOf(m: Buffer, at: nat, n: nat, width: nat): (mask: Buffer)
    requires at + 8 * n <= |m|
    ensures |mask| == width
  {
    seq(width, x requires 0 <= x < width => exists i :: 0 <= i < n && ByteAt(m, at, i) == x)
  }

  lemma Pow2Of8()
    ensures Pow2(8) == 256
  {
    assert Pow2(4) == 16;
    assert Pow2(8) == 2 * (2 * (2 * (2 * Pow2(4))));
  }

  lemma ByteIn(m: Buffer, at: nat, bytes: Buffer, i: nat, e: Buffer)
    requires Has(m, at, bytes) && 8 * i + 8 <= |bytes| && bytes[8 * i..8 * i + 8] == e
    ensures at + 8 * i + 8 <= |m| && ByteAt(m, at, i) == Num(e)
  {
    Part(m, at, at + |bytes|, 8 * i, 8);
  }

  lemma ByteOfBytes(ps: seq<nat>, m: Buffer, at: nat, bytes: Buffer, i: nat)
    requires bytes == Bytes(ps) && Has(m, at, bytes) && i < |ps| && ps[i] < 256 && at + 8 * i + 8 <= |m|
    ensures ByteAt(m, at, i) == ps[i]
  {
    BytesAt(ps, i);
    ByteIn(m, at, bytes, i, Enc(ps[i], 8));
    ByteValue(ps[i]);
  }

  lemma ByteValue(v: nat)
    requires v < 256
    ensures Num(Enc(v, 8)) == v
  {
    Pow2Of8();
    NumOfEnc(v, 8);
  }

  /** Packing the positions of a mask gives the mask again. */
  lemma PackedBack(mask: Buffer, m: Buffer, at: nat)
    requires |mask| <= 16 && Has(m, at, Bytes(Positions(mask, 0)))
    ensures MaskOf(m, at, |Positions(mask, 0)|, |mask|) == mask
  {
    var ps := Positions(mask, 0);
    var back := MaskOf(m, at, |ps|, |mask|);
    forall x | 0 <= x < |mask| ensures back[x] == mask[x] {
      if mask[x] {
        PositionsComplete(mask, 0, x);
        var i :| 0 <= i < |ps| && ps[i] == x;
        ByteOfBytes(ps, m, at, Bytes(ps), i);
      } else if back[x] {
        var i :| 0 <= i < |ps| && ByteAt(m, at, i) == x;
        ByteOfBytes(ps, m, at, Bytes(ps), i);
      }
    }
  }

  // ----- one instruction -----

  /** The part of the descriptor an instruction looks at is there. */
  predicate Reads(i: Insn, d: Buffer) {
    match i
    case Packed(aml, _, _, width) => width <= 16 && 8 * aml + width <= |d|
    case BitField(aml, _, width, shift) => shift + width <= 8 && 8 * aml + 8 <= |d|
    case Field(aml, _, _, _) => 8 * aml + Length(i) <= |d|
    case _ => true
  }

  /** What an instruction writes to the native structure for the descriptor `d`. */
  function Patches(i: Insn, d: Buffer): seq<Patch>
    requires Reads(i, d)
  {
    match i
    case Packed(aml, native, count, width) =>
      var ps := Positions(d[8 * aml..8 * aml + width], 0);
      [Patch(8 * native, Bytes(ps)), Patch(8 * count, Enc(|ps|, 8))]
    case BitField(aml, native, width, shift) =>
      [Patch(8 * native, d[8 * aml + shift..8 * aml + shift + width] + Zeros(8 - width))]
    case Field(aml, native, _, _) => [Patch(8 * native, d[8 * aml..8 * aml + Length(i)])]
    case SetTo(_, native, value) => [Patch(8 * native, Enc(value, 8))]
    case End => []
    case SkipIfLess(_, _) => []
  }

  /** An instruction towards AML: reads the native fields at `base` of `n`, writes the descriptor at `o` of `a`. */
  function StepAml(i: Insn, n: Buffer, base: nat, a: Buffer, o: nat): (r: Option<Buffer>)
    ensures r.Some? ==> |r.value| == |a|
  {
    match i
    case Packed(aml, native, count, width) =>
      if base + 8 * count + 8 > |n| || base + 8 * native + 8 * ByteAt(n, base, count) > |n| || o + 8 * aml + width > |a| then None
      else Some(Put(a, o + 8 * aml, MaskOf(n, base + 8 * native, ByteAt(n, base, count), width)))
    case BitField(aml, native, width, shift) =>
      if base + 8 * native + 8 > |n| || o + 8 * aml + 8 > |a| || shift > 8 then None
      else Some(Or(a, o + 8 * aml + shift, n[base + 8 * native..base + 8 * native + 8 - shift]))
    case Field(aml, native, _, _) =>
      if base + 8 * native + Length(i) > |n| || o + 8 * aml + Length(i) > |a| then None
      else Some(Put(a, o + 8 * aml, n[base + 8 * native..base + 8 * native + Length(i)]))
    case SetTo(aml, _, value) =>
      if o + 8 * aml + 8 > |a| then None else Some(Put(a, o + 8 * aml, Enc(value, 8)))
    case End => Some(a)
    case SkipIfLess(_, _) => Some(a)
  }

  /** The bits of a descriptor that an instruction takes along. */
  predicate Carries(i: Insn, x: nat) {
    match i
    case Packed(aml, _, _, width) => 8 * aml <= x < 8 * aml + width
    case BitField(aml, _, width, shift) => 8 * aml + shift <= x < 8 * aml + shift + width
    case Field(aml, _, _, _) => 8 * aml <= x < 8 * aml + Length(i)
    case _ => false
  }

  /** The native structure at `base` holds what the instruction wrote for `d`. */
  predicate Holds(i: Insn, d: Buffer, n: Buffer, base: nat)
    requires Reads(i, d)
  {
    forall k :: 0 <= k < |Patches(i, d)| ==> Has(n, base + Patches(i, d)[k].at, Patches(i, d)[k].bits)
  }

  /** Going back, an instruction restores the bits it carries and touches no others. */
  ghost predicate Restored(i: Insn, d: Buffer, a: Buffer, o: nat, r: Buffer) {
    && |r| == |a| && o + |d| <= |a|
    && (forall x :: 0 <= x < |d| && Carries(i, x) ==> r[o + x] == (d[x] || (i.BitField? && a[o + x])))
    && (forall y :: 0 <= y < |a| && !(o <= y < o + |d| && Carries(i, y - o)) ==> r[y] == a[y])
  }

  predicate IsMove(i: Insn) { i.Packed? || i.BitField? || i.Field? }

  lemma StepBack(i: Insn, d: Buffer, n: Buffer, base: nat, a: Buffer, o: nat)
    requires IsMove(i) && Reads(i, d) && Holds(i, d, n, base) && o + |d| <= |a|
    ensures StepAml(i, n, base, a, o).Some? && Restored(i, d, a, o, StepAml(i, n, base, a, o).value)
  {
    match i
    case Field(aml, native, bytes, times) => FieldBack(i, d, n, base, a, o);
    case BitField(aml, native, width, shift) => BitFieldBack(i, d, n, base, a, o);
    case Packed(aml, native, count, width) => PackedStepBack(i, d, n, base, a, o);
  }

  lemma FieldBack(i: Insn, d: Buffer, n: Buffer, base: nat, a: Buffer, o: nat)
    requires i.Field? && Reads(i, d) && Holds(i, d, n, base) && o + |d| <= |a|
    ensures StepAml(i, n, base, a, o).Some? && Restored(i, d, a, o, StepAml(i, n, base, a, o).value)
  {
    var p := Patches(i, d)[0];
    assert Has(n, base + p.at, p.bits);
    PutBack(i, d, a, o, 8 * i.aml, p.bits);
  }

  lemma BitFieldBack(i: Insn, d: Buffer, n: Buffer, base: nat, a: Buffer, o: nat)
    requires i.BitField? && Reads(i, d) && Holds(i, d, n, base) && o + |d| <= |a|
    ensures StepAml(i, n, base, a, o).Some? && Restored(i, d, a, o, StepAml(i, n, base, a, o).value)
  {
    var src := BitFieldSource(i, d, n, base);
    var r := BitFieldStep(i, d, n, base, a, o, src);
  }

  /** Or-ing that into the descriptor, with the native structure out of sight. */
  lemma BitFieldStep(i: Insn, d: Buffer, n: Buffer, base: nat, a: Buffer, o: nat, src: Buffer) returns (r: Buffer)
    requires i.BitField? && Reads(i, d) && o + |d| <= |a|
    requires base + 8 * i.native + 8 <= |n| && src == n[base + 8 * i.native..base + 8 * i.native + 8 - i.shift]
    requires forall k :: 0 <= k < |src| ==> src[k] == (k < i.width && d[8 * i.aml + i.shift + k])
    ensures StepAml(i, n, base, a, o) == Some(r) && Restored(i, d, a, o, r)
  {
    r := Or(a, o + 8 * i.aml + i.shift, src);
    OrBack(i, d, a, o, src);
  }

  /** What the native byte hands back: the bits of the field, then zeros. */
  lemma BitFieldSource(i: Insn, d: Buffer, n: Buffer, base: nat) returns (src: Buffer)
    requires i.BitField? && Reads(i, d) && Holds(i, d, n, base)
    ensures base + 8 * i.native + 8 <= |n| && src == n[base + 8 * i.native..base + 8 * i.native + 8 - i.shift]
    ensures forall k :: 0 <= k < |src| ==> src[k] == (k < i.width && d[8 * i.aml + i.shift + k])
  {
    var p, from := Patches(i, d)[0], base + 8 * i.native;
    assert Has(n, from, p.bits);
    LowBits(n, from, p.bits, 8 - i.shift);
    src := n[from..from + 8 - i.shift];
    FieldBits(i, d, src);
  }

  lemma FieldBits(i: Insn, d: Buffer, src: Buffer)
    requires i.BitField? && Reads(i, d) && src == (d[8 * i.aml + i.shift..8 * i.aml + i.shift + i.width] + Zeros(8 - i.width))[..8 - i.shift]
    ensures forall k :: 0 <= k < |src| ==> src[k] == (k < i.width && d[8 * i.aml + i.shift + k])
  {
  }

  lemma LowBits(n: Buffer, from: nat, bits: Buffer, k: nat)
    requires Has(n, from, bits) && k <= |bits|
    ensures n[from..from + k] == bits[..k]
  {
    Part(n, from, from + |bits|, 0, k);
  }

  lemma OrBack(i: Insn, d: Buffer, a: Buffer, o: nat, src: Buffer)
    requires i.BitField? && Reads(i, d) && o + |d| <= |a| && |src| == 8 - i.shift
    requires forall k :: 0 <= k < |src| ==> src[k] == (k < i.width && d[8 * i.aml + i.shift + k])
    ensures Restored(i, d, a, o, Or(a, o + 8 * i.aml + i.shift, src))
  {
    var r := Or(a, o + 8 * i.aml + i.shift, src);
    forall x | 0 <= x < |d| && Carries(i, x) ensures r[o + x] == (d[x] || a[o + x]) {
      assert src[x - 8 * i.aml - i.shift] == d[x];
    }
  }

  /** The count and the mask are read back from the native array. */
  lemma PackedReadBack(i: Insn, d: Buffer, n: Buffer, base: nat)
    requires i.Packed? && Reads(i, d) && Holds(i, d, n, base)
    ensures var mask := d[8 * i.aml..8 * i.aml + i.width];
            var len := |Positions(mask, 0)|;
            && base + 8 * i.count + 8 <= |n| && ByteAt(n, base, i.count) == len && base + 8 * i.native + 8 * len <= |n|
            && MaskOf(n, base + 8 * i.native, len, i.width) == mask
  {
    var mask := d[8 * i.aml..8 * i.aml + i.width];
    var ps := Positions(mask, 0);
    var p, q := Patches(i, d)[0], Patches(i, d)[1];
    assert Has(n, base + p.at, p.bits) && Has(n, base + q.at, q.bits);
    CountBack(n, base, i.count, |ps|);
    PackedBack(mask, n, base + 8 * i.native);
  }

  lemma CountBack(n: Buffer, base: nat, count: nat, v: nat)
    requires v < 256 && Has(n, base + 8 * count, Enc(v, 8))
    ensures base + 8 * count + 8 <= |n| && ByteAt(n, base, count) == v
  {
    ByteValue(v);
  }

  lemma PackedStepBack(i: Insn, d: Buffer, n: Buffer, base: nat, a: Buffer, o: nat)
    requires i.Packed? && Reads(i, d) && Holds(i, d, n, base) && o + |d| <= |a|
    ensures StepAml(i, n, base, a, o).Some? && Restored(i, d, a, o, StepAml(i, n, base, a, o).value)
  {
    PackedStep(i, d, n, base, a, o);
    PutBack(i, d, a, o, 8 * i.aml, d[8 * i.aml..8 * i.aml + i.width]);
  }

  lemma PackedStep(i: Insn, d: Buffer, n: Buffer, base: nat, a: Buffer, o: nat)
    requires i.Packed? && Reads(i, d) && Holds(i, d, n, base) && o + |d| <= |a|
    ensures StepAml(i, n, base, a, o) == Some(Put(a, o + 8 * i.aml, d[8 * i.aml..8 * i.aml + i.width]))
  {
    PackedReadBack(i, d, n, base);
  }

  /** Putting back a stretch of the descriptor. */
  lemma PutBack(i: Insn, d: Buffer, a: Buffer, o: nat, at: nat, bits: Buffer)
    requires !i.BitField? && at + |bits| <= |d| && o + |d| <= |a| && bits == d[at..at + |bits|]
    requires forall x: nat :: Carries(i, x) <==> at <= x < at + |bits|
    ensures Restored(i, d, a, o, Put(a, o + at, bits))
  {
  }

  // ----- straight-line programs -----

  predicate Carried(list: seq<Insn>, x: nat) { exists k :: 0 <= k < |list| && Carries(list[k], x) }

  /** An instruction towards the native structure at `base` of `m`. */
  function StepNative(i: Insn, d: Buffer, m: Buffer, base: nat): (r: Option<Buffer>)
    ensures r.Some? ==> |r.value| == |m|
  {
    if !Reads(i, d) || base > |m| || !AllInside(Patches(i, d), |m| - base) then None
    else Some(Apply(m, base, Patches(i, d)))
  }

  function StepsNative(list: seq<Insn>, d: Buffer, m: Buffer, base: nat): (r: Option<Buffer>)
    ensures r.Some? ==> |r.value| == |m|
    decreases |list|
  {
    if list == [] then Some(m)
    else
      var s := StepNative(list[0], d, m, base);
      if s.None? then None else StepsNative(list[1..], d, s.value, base)
  }

  function StepsAml(list: seq<Insn>, n: Buffer, base: nat, a: Buffer, o: nat): (r: Option<Buffer>)
    ensures r.Some? ==> |r.value| == |a|
    decreases |list|
  {
    if list == [] then Some(a)
    else
      var s := StepAml(list[0], n, base, a, o);
      if s.None? then None else StepsAml(list[1..], n, base, s.value, o)
  }

  /** The descriptor at `o` has the carried bits of `d`; everything else is as it was. */
  ghost predicate AllRestored(list: seq<Insn>, d: Buffer, a: Buffer, o: nat, r: Buffer) {
    && |r| == |a| && o + |d| <= |a|
    && (forall x :: 0 <= x < |d| && Carried(list, x) ==> r[o + x] == d[x])
    && (forall y :: 0 <= y < |a| && !(o <= y < o + |d| && Carried(list, y - o)) ==> r[y] == a[y])
  }

  ghost predicate AllHold(list: seq<Insn>, d: Buffer, n: Buffer, base: nat) {
    forall k :: 0 <= k < |list| ==> IsMove(list[k]) && Reads(list[k], d) && Holds(list[k], d, n, base)
  }

  lemma CarriedCons(list: seq<Insn>, x: nat)
    requires list != []
    ensures Carried(list, x) <==> Carries(list[0], x) || Carried(list[1..], x)
  {
    if k :| 0 <= k < |list| && Carries(list[k], x) && k > 0 {
      assert list[1..][k - 1] == list[k];
    }
    if k :| 0 <= k < |list[1..]| && Carries(list[1..][k], x) {
      assert list[k + 1] == list[1..][k];
    }
  }

  lemma {:induction false} StepsBack(list: seq<Insn>, d: Buffer, n: Buffer, base: nat, a: Buffer, o: nat)
    requires AllHold(list, d, n, base) && o + |d| <= |a|
    requires forall x :: 0 <= x < |d| && Carried(list, x) ==> a[o + x] ==> d[x]
    ensures StepsAml(list, n, base, a, o).Some? && AllRestored(list, d, a, o, StepsAml(list, n, base, a, o).value)
    decreases |list|
  {
    if list != [] {
      StepBack(list[0], d, n, base, a, o);
      var s := StepAml(list[0], n, base, a, o).value;
      forall x | 0 <= x < |d| ensures Carried(list, x) <==> Carries(list[0], x) || Carried(list[1..], x) { CarriedCons(list, x); }
      RestoredOrSame(list[0], d, a, o, s);
      StepsBack(list[1..], d, n, base, s, o);
    }
  }

  lemma RestoredOrSame(i: Insn, d: Buffer, a: Buffer, o: nat, r: Buffer)
    requires Restored(i, d, a, o, r)
    requires forall x :: 0 <= x < |d| && Carries(i, x) ==> a[o + x] ==> d[x]
    ensures forall x :: 0 <= x < |d| ==> r[o + x] == if Carries(i, x) then d[x] else a[o + x]
  {
  }

  // ----- programs with skips -----

  /** The instructions that a program executes for a descriptor of `size` bytes, up to its End. */
  function Linear(prog: Program, pc: nat, size: nat): Option<seq<Insn>>
    decreases |prog| - pc
  {
    if pc >= |prog| then None
    else
      match prog[pc]
      case End => Some([])
      case SkipIfLess(limit, skip) => Linear(prog, if size < limit then pc + 1 + skip else pc + 1, size)
      case i =>
        var rest := Linear(prog, pc + 1, size);
        if rest.None? then None else Some([i] + rest.value)
  }

  /** do_aml_resource_to_native; None is a program that runs away or leaves a buffer. */
  function ToNative(prog: Program, pc: nat, size: nat, d: Buffer, m: Buffer, base: nat): (r: Option<Buffer>)
    ensures r.Some? ==> |r.value| == |m|
    decreases |prog| - pc
  {
    if pc >= |prog| then None
    else
      match prog[pc]
      case End => Some(m)
      case SkipIfLess(limit, skip) => ToNative(prog, if size < limit then pc + 1 + skip else pc + 1, size, d, m, base)
      case i =>
        var s := StepNative(i, d, m, base);
        if s.None? then None else ToNative(prog, pc + 1, size, d, s.value, base)
  }

  /** do_native_resource_to_aml, after the descriptor's header. */
  function ToAml(prog: Program, pc: nat, size: nat, n: Buffer, base: nat, a: Buffer, o: nat): (r: Option<Buffer>)
    ensures r.Some? ==> |r.value| == |a|
    decreases |prog| - pc
  {
    if pc >= |prog| then None
    else
      match prog[pc]
      case End => Some(a)
      case SkipIfLess(limit, skip) => ToAml(prog, if size < limit then pc + 1 + skip else pc + 1, size, n, base, a, o)
      case i =>
        var s := StepAml(i, n, base, a, o);
        if s.None? then None else ToAml(prog, pc + 1, size, n, base, s.value, o)
  }

  /** The loop of do_aml_resource_to_native. */
  method RunToNative(prog: Program, size: nat, d: Buffer, native: Buffer, base: nat) returns (r: Option<Buffer>)
    ensures r == ToNative(prog, 0, size, d, native, base)
  {
    var pc, m := 0, native;
    while pc < |prog|
      invariant 0 <= pc && ToNative(prog, 0, size, d, native, base) == ToNative(prog, pc, size, d, m, base)
      decreases |prog| - pc
    {
      var insn := prog[pc];
      pc := pc + 1;
      match insn {
        case End =>
          return Some(m);
        case SkipIfLess(limit, skip) =>
          if size < limit { pc := pc + skip; }
        case _ =>
          var s := StepNative(insn, d, m, base);
          if s.None? {
            return None;
          }
          m := s.value;
      }
    }
    return None;
  }

  /** The loop of do_native_resource_to_aml. */
  method RunToAml(prog: Program, size: nat, n: Buffer, base: nat, aml: Buffer, o: nat) returns (r: Option<Buffer>)
    ensures r == ToAml(prog, 0, size, n, base, aml, o)
  {
    var pc, a := 0, aml;
    while pc < |prog|
      invariant 0 <= pc && ToAml(prog, 0, size, n, base, aml, o) == ToAml(prog, pc, size, n, base, a, o)
      decreases |prog| - pc
    {
      var insn := prog[pc];
      pc := pc + 1;
      match insn {
        case End =>
          return Some(a);
        case SkipIfLess(limit, skip) =>
          if size < limit { pc := pc + skip; }
        case _ =>
          var s := StepAml(insn, n, base, a, o);
          if s.None? {
            return None;
          }
          a := s.value;
      }
    }
    return None;
  }

  lemma {:induction false} ToNativeLinear(prog: Program, pc: nat, size: nat, d: Buffer, m: Buffer, base: nat)
    requires Linear(prog, pc, size).Some?
    ensures ToNative(prog, pc, size, d, m, base) == StepsNative(Linear(prog, pc, size).value, d, m, base)
    decreases |prog| - pc
  {
    match prog[pc]
    case End =>
    case SkipIfLess(limit, skip) => ToNativeLinear(prog, if size < limit then pc + 1 + skip else pc + 1, size, d, m, base);
    case i =>
      var rest := Linear(prog, pc + 1, size).value;
      assert ([i] + rest)[1..] == rest;
      var s := StepNative(i, d, m, base);
      if s.Some? { ToNativeLinear(prog, pc + 1, size, d, s.value, base); }
  }

  lemma {:induction false} ToAmlLinear(prog: Program, pc: nat, size: nat, n: Buffer, base: nat, a: Buffer, o: nat)
    requires Linear(prog, pc, size).Some?
    ensures ToAml(prog, pc, size, n, base, a, o) == StepsAml(Linear(prog, pc, size).value, n, base, a, o)
    decreases |prog| - pc
  {
    match prog[pc]
    case End =>
    case SkipIfLess(limit, skip) => ToAmlLinear(prog, if size < limit then pc + 1 + skip else pc + 1, size, n, base, a, o);
    case i =>
      var rest := Linear(prog, pc + 1, size).value;
      assert ([i] + rest)[1..] == rest;
      var s := StepAml(i, n, base, a, o);
      if s.Some? { ToAmlLinear(prog, pc + 1, size, n, base, s.value, o); }
  }

  // ----- where instructions write in the native structure -----

  function Lo(i: Insn): nat {
    match i
    case Packed(_, _, count, _) => 8 * count
    case BitField(_, native, _, _) => 8 * native
    case Field(_, native, _, _) => 8 * native
    case SetTo(_, native, _) => 8 * native
    case _ => 0
  }

  function Hi(i: Insn, d: Buffer): nat
    requires Reads(i, d)
  {
    match i
    case Packed(aml, native, _, width) => 8 * native + 8 * |Positions(d[8 * aml..8 * aml + width], 0)|
    case BitField(_, native, _, _) => 8 * native + 8
    case Field(_, native, _, _) => 8 * native + Length(i)
    case SetTo(_, native, _) => 8 * native + 8
    case _ => 0
  }

  /** Reads within the descriptor and writes within `room` bits; an array follows its count. */
  predicate Proper(i: Insn, d: Buffer, room: nat) {
    Reads(i, d) && Hi(i, d) <= room && (i.Packed? ==> i.native == i.count + 1)
  }

  predicate Separate(i: Insn, j: Insn, d: Buffer)
    requires Reads(i, d) && Reads(j, d)
  {
    Hi(i, d) <= Lo(j) || Hi(j, d) <= Lo(i)
  }

  ghost predicate Tidy(list: seq<Insn>, d: Buffer, room: nat) {
    && (forall k :: 0 <= k < |list| ==> Proper(list[k], d, room))
    && (forall k, j :: 0 <= k < j < |list| ==> Separate(list[k], list[j], d))
  }

  /** One instruction: its patches are in place and nothing outside its extent has changed. */
  ghost predicate Written(i: Insn, d: Buffer, m: Buffer, base: nat, r: Buffer)
    requires Reads(i, d)
  {
    && |r| == |m| && Holds(i, d, r, base)
    && (forall x :: 0 <= x < |m| && !(base + Lo(i) <= x < base + Hi(i, d)) ==> r[x] == m[x])
  }

  lemma StepNativeHolds(i: Insn, d: Buffer, m: Buffer, base: nat, room: nat)
    requires Proper(i, d, room) && base + room <= |m|
    ensures StepNative(i, d, m, base).Some? && Written(i, d, m, base, StepNative(i, d, m, base).value)
  {
    var ps := Patches(i, d);
    match i
    case Packed(_, _, _, _) => PackedWritten(i, d, m, base, room);
    case BitField(_, _, _, _) => OneWritten(i, d, m, base, room);
    case Field(_, _, _, _) => OneWritten(i, d, m, base, room);
    case SetTo(_, _, _) => OneWritten(i, d, m, base, room);
    case End =>
    case SkipIfLess(_, _) =>
  }

  lemma OneWritten(i: Insn, d: Buffer, m: Buffer, base: nat, room: nat)
    requires Proper(i, d, room) && base + room <= |m| && (i.BitField? || i.Field? || i.SetTo?)
    ensures StepNative(i, d, m, base).Some? && Written(i, d, m, base, StepNative(i, d, m, base).value)
  {
    var p := Patches(i, d)[0];
    assert Patches(i, d) == [p] && p.at == Lo(i) && p.at + |p.bits| == Hi(i, d);
    assert Patches(i, d)[1..] == [] && AllInside(Patches(i, d), |m| - base);
    assert Apply(m, base, Patches(i, d)) == Put(m, base + p.at, p.bits);
    HasPut(m, base + p.at, p.bits);
  }

  /** Two stretches, the second right before the first. */
  lemma PutTwice(m: Buffer, a: nat, x: Buffer, b: nat, y: Buffer)
    requires b + |y| == a && a + |x| <= |m|
    ensures var r := Put(Put(m, a, x), b, y);
            && |r| == |m| && Has(r, a, x) && Has(r, b, y)
            && (forall k :: 0 <= k < |m| && !(b <= k < a + |x|) ==> r[k] == m[k])
  {
    var m1 := Put(m, a, x);
    HasPut(m, a, x);
    HasKept(m1, Put(m1, b, y), a, x);
    HasPut(m1, b, y);
  }

  lemma ApplyTwo(m: Buffer, base: nat, p: Patch, q: Patch)
    requires base + p.at + |p.bits| <= |m| && base + q.at + |q.bits| <= |m|
    ensures AllInside([p, q], |m| - base)
    ensures Apply(m, base, [p, q]) == Put(Put(m, base + p.at, p.bits), base + q.at, q.bits)
  {
    var m1 := Put(m, base + p.at, p.bits);
    var r := Put(m1, base + q.at, q.bits);
    assert [p, q][1..] == [q] && [q][1..] == [];
    assert Apply(m1, base, [q]) == Apply(r, base, []) == r;
    assert Apply(m, base, [p, q]) == Apply(m1, base, [q]);
  }

  lemma PackedWritten(i: Insn, d: Buffer, m: Buffer, base: nat, room: nat)
    requires Proper(i, d, room) && base + room <= |m| && i.Packed?
    ensures StepNative(i, d, m, base).Some? && Written(i, d, m, base, StepNative(i, d, m, base).value)
  {
    var ps := Patches(i, d);
    var p, q := ps[0], ps[1];
    assert ps == [p, q] && p.at + |p.bits| == Hi(i, d) && q.at == Lo(i) && q.at + |q.bits| == p.at;
    ApplyTwo(m, base, p, q);
    PutTwice(m, base + p.at, p.bits, base + q.at, q.bits);
  }

  /** No instruction of the list writes bit `y` of the structure. */
  predicate Untouched(list: seq<Insn>, d: Buffer, y: int)
    requires forall k :: 0 <= k < |list| ==> Reads(list[k], d)
  {
    forall k :: 0 <= k < |list| ==> !(Lo(list[k]) <= y < Hi(list[k], d))
  }

  lemma HoldsKept(i: Insn, d: Buffer, m: Buffer, r: Buffer, base: nat, room: nat)
    requires Proper(i, d, room) && base + room <= |m| == |r| && Holds(i, d, m, base)
    requires forall x :: base + Lo(i) <= x < base + Hi(i, d) ==> r[x] == m[x]
    ensures Holds(i, d, r, base)
  {
    var ps := Patches(i, d);
    forall k | 0 <= k < |ps| ensures Has(r, base + ps[k].at, ps[k].bits) {
      assert Has(m, base + ps[k].at, ps[k].bits);
      assert Lo(i) <= ps[k].at && ps[k].at + |ps[k].bits| <= Hi(i, d);
      HasKept(m, r, base + ps[k].at, ps[k].bits);
    }
  }

  lemma {:induction false} StepsNativeHolds(list: seq<Insn>, d: Buffer, m: Buffer, base: nat, room: nat)
    requires Tidy(list, d, room) && base + room <= |m|
    ensures StepsNative(list, d, m, base).Some?
    ensures forall k :: 0 <= k < |list| ==> Holds(list[k], d, StepsNative(list, d, m, base).value, base)
    ensures forall x :: 0 <= x < |m| && Untouched(list, d, x - base) ==> StepsNative(list, d, m, base).value[x] == m[x]
    decreases |list|
  {
    if list != [] {
      var i, rest := list[0], list[1..];
      StepNativeHolds(i, d, m, base, room);
      var m1 := StepNative(i, d, m, base).value;
      assert Tidy(rest, d, room);
      StepsNativeHolds(rest, d, m1, base, room);
      var r := StepsNative(rest, d, m1, base).value;
      forall x | base + Lo(i) <= x < base + Hi(i, d) ensures r[x] == m1[x] { RestLeaves(list, d, room, x - base); }
      HoldsKept(i, d, m1, r, base, room);
      forall k | 0 <= k < |list| ensures Holds(list[k], d, r, base) { assert k > 0 ==> list[k] == rest[k - 1]; }
      forall x | 0 <= x < |m| && Untouched(list, d, x - base) ensures r[x] == m[x] { UntouchedRest(list, d, x - base); }
    }
  }

  lemma RestLeaves(list: seq<Insn>, d: Buffer, room: nat, y: int)
    requires list != [] && Tidy(list, d, room) && Lo(list[0]) <= y < Hi(list[0], d)
    ensures (forall k :: 0 <= k < |list[1..]| ==> Reads(list[1..][k], d)) && Untouched(list[1..], d, y)
  {
    forall k | 0 <= k < |list[1..]| ensures Reads(list[1..][k], d) && !(Lo(list[1..][k]) <= y < Hi(list[1..][k], d)) {
      assert Proper(list[k + 1], d, room) && Separate(list[0], list[k + 1], d);
    }
  }

  lemma UntouchedRest(list: seq<Insn>, d: Buffer, y: int)
    requires list != [] && (forall k :: 0 <= k < |list| ==> Reads(list[k], d)) && Untouched(list, d, y)
    ensures (forall k :: 0 <= k < |list[1..]| ==> Reads(list[1..][k], d)) && Untouched(list[1..], d, y)
    ensures !(Lo(list[0]) <= y < Hi(list[0], d))
  {
  }
}
