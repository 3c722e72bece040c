/** Bytes, big-endian numbers and the concatenation of byte strings. */
module Octets {
  type Byte = b: int | 0 <= b < 256

  /** `u16::from_be_bytes`. */
  function U16(hi: Byte, lo: Byte): (n: nat)
    ensures n < 0x1_0000
  {
    256 * hi + lo
  }

  /** `u32::from_be_bytes`. */
  function U32(b3: Byte, b2: Byte, b1: Byte, b0: Byte): (n: nat)
    ensures n < 0x1_0000_0000
  {
    0x1_0000 * U16(b3, b2) + U16(b1, b0)
  }

  /** `u16::to_be_bytes`. */
  function BigEndian(n: nat): (bs: seq<Byte>)
    requires n < 0x1_0000
    ensures |bs| == 2 && U16(bs[0], bs[1]) == n
  {
    [n / 256, n % 256]
  }

  /** `u32::to_be_bytes`. */
  function BigEndian32(n: nat): (bs: seq<Byte>)
    requires n < 0x1_0000_0000
    ensures |bs| == 4 && U32(bs[0], bs[1], bs[2], bs[3]) == n
  {
    BigEndian(n / 0x1_0000) + BigEndian(n % 0x1_0000)
  }

  lemma BigEndianOfU16(hi: Byte, lo: Byte)
    ensures BigEndian(U16(hi, lo)) == [hi, lo]
  {
  }

  lemma Halves(hi: nat, lo: nat)
    requires lo < 0x1_0000
    ensures (0x1_0000 * hi + lo) / 0x1_0000 == hi && (0x1_0000 * hi + lo) % 0x1_0000 == lo
  {
  }

  lemma BigEndian32OfU32(b3: Byte, b2: Byte, b1: Byte, b0: Byte)
    ensures BigEndian32(U32(b3, b2, b1, b0)) == [b3, b2, b1, b0]
  {
    Halves(U16(b3, b2), U16(b1, b0));
    BigEndianOfU16(b3, b2);
    BigEndianOfU16(b1, b0);
    assert BigEndian32(U32(b3, b2, b1, b0)) == BigEndian(U16(b3, b2)) + BigEndian(U16(b1, b0));
  }

  /** The bytes of several pieces, one after the other. */
  function Flatten<T>(pieces: seq<seq<T>>): seq<T> {
    if pieces == [] then [] else pieces[0] + Flatten(pieces[1..])
  }

  lemma Associative<T>(a: seq<T>, b: seq<T>, c: seq<T>)
    ensures (a + b) + c == a + (b + c)
  {
  }

  lemma FlattenCons<T>(first: seq<T>, pieces: seq<seq<T>>)
    ensures Flatten([first] + pieces) == first + Flatten(pieces)
  {
    assert ([first] + pieces)[1..] == pieces;
  }

  lemma {:induction false} FlattenConcat<T>(a: seq<seq<T>>, b: seq<seq<T>>)
    ensures Flatten(a + b) == Flatten(a) + Flatten(b)
  {
    if a == [] {
      assert a + b == b;
    } else {
      FlattenConcat(a[1..], b);
      assert (a + b)[1..] == a[1..] + b;
      assert (a + b)[0] == a[0];
    }
  }

  lemma FlattenSnoc<T>(pieces: seq<seq<T>>, last: seq<T>)
    ensures Flatten(pieces + [last]) == Flatten(pieces) + last
  {
    FlattenConcat(pieces, [last]);
    assert Flatten([last]) == last + Flatten([last][1..]);
  }
}
