/**
  Buffers as bits: byte `k` of a buffer is its bits 8k to 8k + 7, the lowest first, so that
  a little-endian number of any width is read from its bits in order.
 */
module BitBuffer {
  type Buffer = seq<bool>

  function Num(b: Buffer): nat { if b == [] then 0 else (if b[0] then 1 else 0) + 2 * Num(b[1..]) }

  function Enc(v: nat, n: nat): (b: Buffer)
    ensures |b| == n
  {
    if n == 0 then [] else [v % 2 == 1] + Enc(v / 2, n - 1)
  }

  function Pow2(n: nat): nat { if n == 0 then 1 else 2 * Pow2(n - 1) }

  lemma {:induction false} NumOfEnc(v: nat, n: nat)
    requires v < Pow2(n)
    ensures Num(Enc(v, n)) == v
  {
    if n > 0 {
      NumOfEnc(v / 2, n - 1);
      assert Enc(v, n)[1..] == Enc(v / 2, n - 1);
    }
  }

  lemma {:induction false} EncOfNum(b: Buffer)
    ensures Enc(Num(b), |b|) == b && Num(b) < Pow2(|b|)
  {
    if b != [] {
      EncOfNum(b[1..]);
      assert b == [b[0]] + b[1..];
    }
  }

  function Zeros(n: nat): (b: Buffer)
    ensures |b| == n && forall i :: 0 <= i < n ==> !b[i]
  {
    if n == 0 then [] else [false] + Zeros(n - 1)
  }

  /** Overwrites the bits from `at` on. */
  function Put(m: Buffer, at: nat, bits: Buffer): (r: Buffer)
    requires at + |bits| <= |m|
    ensures |r| == |m| && forall x :: 0 <= x < |m| ==> r[x] == if at <= x < at + |bits| then bits[x - at] else m[x]
  {
    m[..at] + bits + m[at + |bits|..]
  }

  /** Sets the bits from `at` on that are set in `bits`. */
  function Or(m: Buffer, at: nat, bits: Buffer): (r: Buffer)
    requires at + |bits| <= |m|
    ensures |r| == |m| && forall x :: 0 <= x < |m| ==> r[x] == (m[x] || (at <= x < at + |bits| && bits[x - at]))
  {
    Put(m, at, seq(|bits|, i requires 0 <= i < |bits| => m[at + i] || bits[i]))
  }

  /** A slice of a slice. */
  lemma Part(t: Buffer, from: nat, to: nat, i: nat, n: nat)
    requires from <= to <= |t| && i + n <= to - from
    ensures t[from + i..from + i + n] == t[from..to][i..i + n]
  {
    var a, b := t[from + i..from + i + n], t[from..to][i..i + n];
    assert forall k :: 0 <= k < n ==> a[k] == b[k];
  }

  /** The bits from `at` on are `bits`. */
  predicate Has(m: Buffer, at: nat, bits: Buffer) { at + |bits| <= |m| && m[at..at + |bits|] == bits }

  lemma HasPut(m: Buffer, at: nat, bits: Buffer)
    requires at + |bits| <= |m|
    ensures Has(Put(m, at, bits), at, bits)
  {
  }

  lemma HasKept(m: Buffer, r: Buffer, at: nat, bits: Buffer)
    requires Has(m, at, bits) && |r| == |m| && forall x :: at <= x < at + |bits| ==> r[x] == m[x]
    ensures Has(r, at, bits)
  {
    var a, b := r[at..at + |bits|], m[at..at + |bits|];
    assert forall k :: 0 <= k < |bits| ==> a[k] == b[k];
  }

  ghost predicate Blank(m: Buffer, from: nat, to: nat) { to <= |m| && forall x :: from <= x < to ==> !m[x] }

  // ----- patches -----

  datatype Patch = Patch(at: nat, bits: Buffer)

  predicate Inside(p: Patch, n: nat) { p.at + |p.bits| <= n }

  predicate AllInside(ps: seq<Patch>, n: nat) { forall i :: 0 <= i < |ps| ==> Inside(ps[i], n) }

  /** Applies patches in order, each relative to `base`. */
  function Apply(m: Buffer, base: nat, ps: seq<Patch>): (r: Buffer)
    requires base <= |m| && AllInside(ps, |m| - base)
    ensures |r| == |m|
    decreases |ps|
  {
    if ps == [] then m else Apply(Put(m, base + ps[0].at, ps[0].bits), base, ps[1..])
  }
}
