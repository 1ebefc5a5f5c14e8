/**
  Reading one descriptor of a resource template (resources.c). Formats are those of section
  6.4 of the ACPI Specification 6.5.
 */
module ResourceWalk {
  import opened Prelude
  import opened BitBuffer
  import opened ResourceChain

  const SERIAL: nat := 0x0E

  datatype Sizing = Fixed | FixedOrOneLess | Variable

  /** The size of a known descriptor without its header, the least one if it varies. */
  datatype Spec = Spec(size: nat, sizing: Sizing)

  const SMALL_ITEMS: map<nat, Spec> := map[
    0x04 := Spec(3, FixedOrOneLess), 0x05 := Spec(2, Fixed), 0x06 := Spec(1, FixedOrOneLess), 0x07 := Spec(0, Fixed),
    0x08 := Spec(7, Fixed), 0x09 := Spec(3, Fixed), 0x0A := Spec(5, Fixed), 0x0E := Spec(0, Variable),
    END_TAG := Spec(1, Fixed)
  ]

  const LARGE_ITEMS: map<nat, Spec> := map[
    0x01 := Spec(9, Fixed), 0x02 := Spec(12, Fixed), 0x04 := Spec(0, Variable), 0x05 := Spec(17, Fixed),
    0x06 := Spec(9, Fixed), 0x07 := Spec(23, Variable), 0x08 := Spec(13, Variable), 0x09 := Spec(2, Variable),
    0x0A := Spec(43, Variable), 0x0B := Spec(53, Fixed), 0x0C := Spec(20, Variable), 0x0D := Spec(15, Variable),
    SERIAL := Spec(9, Variable), 0x0F := Spec(17, Variable), 0x10 := Spec(11, Variable), 0x11 := Spec(14, Variable),
    0x12 := Spec(17, Variable), 0x13 := Spec(10, Variable)
  ]

  function SpecOf(large: bool, name: nat): Option<Spec> {
    var items := if large then LARGE_ITEMS else SMALL_ITEMS;
    if name in items then Some(items[name]) else None
  }

  predicate SizeOk(spec: Spec, size: nat) {
    match spec.sizing
    case Fixed => size == spec.size
    case FixedOrOneLess => size == spec.size || size + 1 == spec.size
    case Variable => size >= spec.size
  }

  // ----- one descriptor -----

  predicate LargeAt(t: Buffer, off: nat)
    requires 8 * off + 8 <= |t|
  {
    t[8 * off + 7]
  }

  function NameAt(t: Buffer, off: nat): nat
    requires 8 * off + 8 <= |t|
  {
    if LargeAt(t, off) then Num(t[8 * off..8 * off + 7]) else Num(t[8 * off + 3..8 * off + 7])
  }

  /** get_aml_resource_size, once the header is known to fit. */
  function SizeAt(t: Buffer, off: nat): nat
    requires 8 * off + 8 <= |t| && (LargeAt(t, off) ==> 8 * off + 24 <= |t|)
  {
    if LargeAt(t, off) then Num(t[8 * off + 8..8 * off + 24]) else Num(t[8 * off..8 * off + 3])
  }

  /** validate_aml_serial_type, on the type byte of a serial connection. */
  predicate SerialOk(t: Buffer, off: nat)
    requires 8 * off + 48 <= |t|
  {
    1 <= Num(t[8 * off + 40..8 * off + 48]) <= 4
  }

  /** The descriptor at a byte offset, if it is one that the walk accepts. */
  function DescAt(t: Buffer, off: nat): (r: Option<Desc>)
    requires Whole(t) && off < Len(t)
    ensures r.Some? ==> r.value.off == off && off + Total(r.value) <= Len(t)
  {
    var large, name := LargeAt(t, off), NameAt(t, off);
    if SpecOf(large, name).None? || off + Header(large) > Len(t) then None
    else
      var size := SizeAt(t, off);
      if off + Header(large) + size > Len(t) || !SizeOk(SpecOf(large, name).value, size) then None
      else if large && name == SERIAL && !SerialOk(t, off) then None
      else Some(Desc(off, large, name, size))
  }

  /** A descriptor is the same wherever its bytes are. */
  lemma DescMoves(t: Buffer, off: nat, u: Buffer, at: nat)
    requires Whole(t) && Whole(u) && off < Len(t) && DescAt(t, off).Some?
    requires Repeats(t, off, off + Total(DescAt(t, off).value), u, at)
    ensures at < Len(u) && DescAt(u, at) == Some(DescAt(t, off).value.(off := at))
  {
    var d := DescAt(t, off).value;
    var to := off + Total(d);
    Inner(t, off, to, u, at, 7, 1);
    assert t[8 * off + 7] == t[8 * off + 7..8 * off + 8][0] && u[8 * at + 7] == u[8 * at + 7..8 * at + 8][0];
    if d.large {
      Inner(t, off, to, u, at, 0, 7);
      Inner(t, off, to, u, at, 8, 16);
      if d.name == SERIAL { Inner(t, off, to, u, at, 40, 8); }
    } else {
      Inner(t, off, to, u, at, 3, 4);
      Inner(t, off, to, u, at, 0, 3);
    }
  }

  lemma EndTagRead(u: Buffer, off: nat)
    requires Whole(u) && off + 2 == Len(u) && u[8 * off..] == END_TAG_BYTES
    ensures DescAt(u, off) == Some(Desc(off, false, END_TAG, 1))
  {
    assert u[8 * off + 7] == u[8 * off..][7];
    assert u[8 * off + 3..8 * off + 7] == u[8 * off..][3..7] == [true, true, true, true];
    assert u[8 * off..8 * off + 3] == u[8 * off..][..3] == [true, false, false];
    EndTagNumbers();
  }

  lemma EndTagNumbers()
    ensures Num([true, true, true, true]) == 15 && Num([true, false, false]) == 1
  {
    assert Num([true, true]) == 3;
    assert [true, true, true, true][1..] == [true, true, true] && [true, true, true][1..] == [true, true];
    assert [true, false, false][1..] == [false, false] && [false, false][1..] == [false] && Num([false]) == 0;
  }


  // ----- the walk with these descriptors -----

  function Read(): Reader { (t: Buffer, off: nat) => if Whole(t) && off < Len(t) then DescAt(t, off) else None }

  lemma ReadIsSound()
    ensures Sound(Read())
  {
  }

  lemma ReadMoves(t: Buffer, off: nat, u: Buffer, at: nat)
    ensures Moves(Read(), t, off, u, at)
  {
    if Whole(u) && Read()(t, off).Some? && Repeats(t, off, off + Total(Read()(t, off).value), u, at) {
      DescMoves(t, off, u, at);
    }
  }

  lemma ReadEndsWith(u: Buffer, off: nat)
    ensures EndsWith(Read(), u, off)
  {
    if Whole(u) && off + 2 == Len(u) && u[8 * off..] == END_TAG_BYTES {
      EndTagRead(u, off);
    }
  }

  /** The descriptors of the table are read as the walk needs them. */
  lemma ReadIsGood()
    ensures Sound(Read()) && Movable(Read()) && ReadsEndTags(Read())
  {
    ReadIsSound();
    forall t: Buffer, off: nat, u: Buffer, at: nat ensures Moves(Read(), t, off, u, at) { ReadMoves(t, off, u, at); }
    forall u: Buffer, off: nat ensures EndsWith(Read(), u, off) { ReadEndsWith(u, off); }
  }

  /** ConcatRes on templates of these descriptors. */
  lemma ConcatTemplates(a: Buffer, b: Buffer)
    requires Whole(a) && Whole(b)
    ensures Sound(Read())
    ensures ConcatRes(Read(), a, b).Some? <==> (a == [] || Walk(Read(), a, 0).0 == Ok) && (b == [] || Walk(Read(), b, 0).0 == Ok)
    ensures ConcatRes(Read(), a, b).Some? ==>
              var ea, eb := EndTagOffset(Read(), a).value, EndTagOffset(Read(), b).value;
              Walk(Read(), ConcatRes(Read(), a, b).value, 0) ==
              (Ok, Moved(Body(Read(), a), 0) + Moved(Body(Read(), b), ea) + [Desc(ea + eb, false, END_TAG, 1)])
  {
    ReadIsGood();
    ConcatResWalk(Read(), a, b);
  }
}
