/** Bits of bytes and of byte strings, least significant bit first. */
module Bits {

  predicate Bit(b: bv8, k: nat) { if k == 0 then b & 1 == 1 else Bit(b >> 1, k - 1) }

  /** Bit `i` of a byte string. */
  predicate BitAt(s: seq<bv8>, i: nat)
    requires i < 8 * |s|
  {
    Bit(s[i / 8], i % 8)
  }

  lemma DivMod8(p: nat, r: nat)
    requires r < 8
    ensures (8 * p + r) / 8 == p && (8 * p + r) % 8 == r
  {
  }

  /** Bit `r` counted from the start of byte `p` lies in byte `p` or the next one. */
  lemma BitAtByte(s: seq<bv8>, p: nat, r: nat)
    requires r < 16 && 8 * p + r < 8 * |s|
    ensures r < 8 ==> BitAt(s, 8 * p + r) == Bit(s[p], r)
    ensures r >= 8 ==> BitAt(s, 8 * p + r) == Bit(s[p + 1], r - 8)
  {
    if r < 8 {
      DivMod8(p, r);
    } else {
      DivMod8(p + 1, r - 8);
      assert 8 * p + r == 8 * (p + 1) + (r - 8);
    }
  }

  lemma BitIs(b: bv8, k: nat)
    requires k < 8
    ensures Bit(b, k) == ((b >> k) & 1 == 1)
  {
    if k == 1 { assert Bit(b, 1) == Bit(b >> 1, 0); }
    else if k == 2 { assert Bit(b, 2) == Bit(b >> 1 >> 1, 0); }
    else if k == 3 { assert Bit(b, 3) == Bit(b >> 1 >> 1, 1) == Bit(b >> 1 >> 1 >> 1, 0); }
    else if k == 4 { assert Bit(b, 4) == Bit(b >> 1 >> 1, 2) == Bit(b >> 1 >> 1 >> 1 >> 1, 0); }
    else if k == 5 { assert Bit(b, 5) == Bit(b >> 1 >> 1, 3) == Bit(b >> 1 >> 1 >> 1 >> 1, 1); }
    else if k == 6 { assert Bit(b, 6) == Bit(b >> 1 >> 1, 4) == Bit(b >> 1 >> 1 >> 1 >> 1, 2); }
    else if k == 7 { assert Bit(b, 7) == Bit(b >> 1 >> 1, 5) == Bit(b >> 1 >> 1 >> 1 >> 1, 3); }
  }

  lemma ShrShr(b: bv8, s: nat, k: nat)
    requires s < 8 && k < 8
    ensures (b >> s) >> k == if k + s < 8 then b >> (k + s) else 0
  {
  }

  lemma ShlShr(b: bv8, s: nat, k: nat)
    requires s < 8 && k < 8
    ensures ((b << s) >> k) & 1 == if k < s then 0 else (b >> (k - s)) & 1
  {
  }

  lemma BitShr(b: bv8, s: nat, k: nat)
    requires s < 8 && k < 8
    ensures Bit(b >> s, k) == (k + s < 8 && Bit(b, k + s))
  {
    ShrShr(b, s, k);
    BitIs(b >> s, k);
    if k + s < 8 { BitIs(b, k + s); }
  }

  lemma BitShl(b: bv8, s: nat, k: nat)
    requires s < 8 && k < 8
    ensures Bit(b << s, k) == (k >= s && Bit(b, k - s))
  {
    ShlShr(b, s, k);
    BitIs(b << s, k);
    if k >= s { BitIs(b, k - s); }
  }

  lemma BitwiseShr(b: bv8, c: bv8, k: nat)
    requires k < 8
    ensures ((b & c) >> k) & 1 == ((b >> k) & 1) & ((c >> k) & 1)
    ensures ((b | c) >> k) & 1 == ((b >> k) & 1) | ((c >> k) & 1)
    ensures ((!b) >> k) & 1 == 1 - ((b >> k) & 1)
  {
  }

  lemma BitAnd(b: bv8, c: bv8, k: nat)
    requires k < 8
    ensures Bit(b & c, k) == (Bit(b, k) && Bit(c, k))
  {
    BitwiseShr(b, c, k);
    BitIs(b, k); BitIs(c, k); BitIs(b & c, k);
  }

  lemma BitOr(b: bv8, c: bv8, k: nat)
    requires k < 8
    ensures Bit(b | c, k) == (Bit(b, k) || Bit(c, k))
  {
    BitwiseShr(b, c, k);
    BitIs(b, k); BitIs(c, k); BitIs(b | c, k);
  }

  lemma BitNot(b: bv8, k: nat)
    requires k < 8
    ensures Bit(!b, k) == !Bit(b, k)
  {
    BitwiseShr(b, b, k);
    BitIs(b, k); BitIs(!b, k);
  }

  /** The mask of the low `n` bits. */
  function LowMask(n: nat): bv8
    requires n <= 8
  {
    if n == 8 then 0xFF else ((1 as bv8) << n) - 1
  }

  lemma LowMaskShr(n: nat, k: nat)
    requires n <= 8 && k < 8
    ensures (LowMask(n) >> k) & 1 == if k < n then 1 else 0
  {
  }

  lemma BitLowMask(n: nat, k: nat)
    requires n <= 8 && k < 8
    ensures Bit(LowMask(n), k) == (k < n)
  {
    LowMaskShr(n, k);
    BitIs(LowMask(n), k);
  }

  lemma BitZero(k: nat)
    ensures !Bit(0, k)
  {
    if k > 0 { BitZero(k - 1); }
  }

  lemma SameShr(b: bv8, c: bv8, k: nat)
    requires k < 8 && Bit(b, k) == Bit(c, k)
    ensures (b >> k) & 1 == (c >> k) & 1
  {
    BitIs(b, k); BitIs(c, k);
  }

  /** A byte is its eight bits. */
  lemma EqualBits(b: bv8, c: bv8)
    requires forall k :: 0 <= k < 8 ==> Bit(b, k) == Bit(c, k)
    ensures b == c
  {
    SameShr(b, c, 0); SameShr(b, c, 1); SameShr(b, c, 2); SameShr(b, c, 3);
    SameShr(b, c, 4); SameShr(b, c, 5); SameShr(b, c, 6); SameShr(b, c, 7);
  }

  // ----- the byte operators of C, by what they do to bits -----

  method And8(b: bv8, c: bv8) returns (r: bv8)
    ensures forall k :: 0 <= k < 8 ==> Bit(r, k) == (Bit(b, k) && Bit(c, k))
  {
    r := b & c;
    forall k | 0 <= k < 8 ensures Bit(r, k) == (Bit(b, k) && Bit(c, k)) { BitAnd(b, c, k); }
  }

  method Or8(b: bv8, c: bv8) returns (r: bv8)
    ensures forall k :: 0 <= k < 8 ==> Bit(r, k) == (Bit(b, k) || Bit(c, k))
  {
    r := b | c;
    forall k | 0 <= k < 8 ensures Bit(r, k) == (Bit(b, k) || Bit(c, k)) { BitOr(b, c, k); }
  }

  method Not8(b: bv8) returns (r: bv8)
    ensures forall k :: 0 <= k < 8 ==> Bit(r, k) == !Bit(b, k)
  {
    r := !b;
    forall k | 0 <= k < 8 ensures Bit(r, k) == !Bit(b, k) { BitNot(b, k); }
  }

  method Shl8(b: bv8, s: nat) returns (r: bv8)
    requires s < 8
    ensures forall k :: 0 <= k < 8 ==> Bit(r, k) == (k >= s && Bit(b, k - s))
  {
    r := b << s;
    forall k | 0 <= k < 8 ensures Bit(r, k) == (k >= s && Bit(b, k - s)) { BitShl(b, s, k); }
  }

  method Shr8(b: bv8, s: nat) returns (r: bv8)
    requires s < 8
    ensures forall k :: 0 <= k < 8 ==> Bit(r, k) == (k + s < 8 && Bit(b, k + s))
  {
    r := b >> s;
    forall k | 0 <= k < 8 ensures Bit(r, k) == (k + s < 8 && Bit(b, k + s)) { BitShr(b, s, k); }
  }

  /** (1 << n) - 1, or 0xFF for 8 */
  method Mask8(n: nat) returns (r: bv8)
    requires n <= 8
    ensures forall k :: 0 <= k < 8 ==> Bit(r, k) == (k < n)
  {
    r := LowMask(n);
    forall k | 0 <= k < 8 ensures Bit(r, k) == (k < n) { BitLowMask(n, k); }
  }
}
