/** Bytes, and numbers laid out in them with the most significant first. */
module Bytes {

  type byte = bv8

  function BigEndian(n: nat, width: nat): (bytes: seq<byte>)
    ensures |bytes| == width
  {
    if width == 0 then [] else BigEndian(n / 256, width - 1) + [(n % 256) as byte]
  }

  function FromBigEndian(bytes: seq<byte>): nat {
    if bytes == [] then 0 else FromBigEndian(bytes[..|bytes| - 1]) * 256 + bytes[|bytes| - 1] as int
  }

  function Pow256(width: nat): nat { if width == 0 then 1 else 256 * Pow256(width - 1) }

  function Number(b: byte): nat { b as int }

  lemma {:induction false} OneMore(bytes: seq<byte>, last: byte)
    ensures FromBigEndian(bytes + [last]) == FromBigEndian(bytes) * 256 + Number(last)
  {
    assert (bytes + [last])[..|bytes|] == bytes;
  }

  /** The first of the bytes counts most. */
  lemma {:induction false} FirstCountsMost(first: byte, rest: seq<byte>)
    ensures FromBigEndian([first] + rest) == Number(first) * Pow256(|rest|) + FromBigEndian(rest)
    decreases |rest|
  {
    hide FromBigEndian, Number;
    if rest == [] {
      OneMore([], first);
      NoBytes();
      assert [] + [first] == [first] + rest;
    } else {
      var last := |rest| - 1;
      var init, power := rest[..last], Pow256(last);
      assert rest == init + [rest[last]] && [first] + rest == ([first] + init) + [rest[last]];
      FirstCountsMost(first, init);
      OneMore([first] + init, rest[last]);
      OneMore(init, rest[last]);
      Carried(Number(first), power, FromBigEndian(init));
    }
  }

  lemma {:induction false} NoBytes()
    ensures FromBigEndian([]) == 0
  {
  }

  lemma {:induction false} Carried(first: nat, power: nat, before: nat)
    ensures (first * power + before) * 256 == first * (256 * power) + before * 256
  {
  }

  lemma {:induction false} SmallReadsBack(n: nat)
    requires n < 128
    ensures (n as byte) as int == n && (n as byte) < 128
  {
  }

  lemma {:induction false} ByteReadsBack(n: nat)
    requires n < 256
    ensures (n as byte) as int == n
  {
    if n < 128 { SmallReadsBack(n); } else {
      SmallReadsBack(n - 128);
      assert (n as byte) == 128 + ((n - 128) as byte);
    }
  }

  lemma {:induction false} BigEndianReadsBack(n: nat, width: nat)
    requires n < Pow256(width)
    ensures FromBigEndian(BigEndian(n, width)) == n
  {
    if width > 0 {
      BigEndianReadsBack(n / 256, width - 1);
      ByteReadsBack(n % 256);
      assert BigEndian(n, width)[..width - 1] == BigEndian(n / 256, width - 1);
    }
  }

  lemma {:induction false} ByteIsItself(b: byte)
    ensures b as int < 256 && (b as int) as byte == b
  {
  }

  const TWO_BYTES: nat := 0x1_0000
  const EIGHT_BYTES: nat := 0x1_0000_0000_0000_0000

  lemma {:induction false} Widths()
    ensures Pow256(2) == TWO_BYTES && Pow256(8) == EIGHT_BYTES
  {
    assert Pow256(2) == 256 * Pow256(1) == 256 * (256 * Pow256(0));
    assert Pow256(4) == 256 * Pow256(3) == 256 * (256 * Pow256(2));
    assert Pow256(6) == 256 * Pow256(5) == 256 * (256 * Pow256(4));
    assert Pow256(8) == 256 * Pow256(7) == 256 * (256 * Pow256(6));
  }
}
