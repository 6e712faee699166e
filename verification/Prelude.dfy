/** Shared vocabulary: bytes, optional values and flattened chunk lists. */
module Prelude {

  type Byte = bv8
  type Bytes = seq<Byte>

  type U32 = x: int | 0 <= x < 0x1_0000_0000
  type U16 = x: int | 0 <= x < 0x1_0000

  /** A clock reading in nanoseconds. */
  type Time = int

  const SECOND: Time := 1_000_000_000

  datatype Option<+T> = None | Some(value: T)

  /** Concatenation of a list of chunks. */
  function Flatten<T>(chunks: seq<seq<T>>): (all: seq<T>) {
    if chunks == [] then [] else chunks[0] + Flatten(chunks[1..])
  }

  lemma {:induction false} FlattenSnoc<T>(chunks: seq<seq<T>>, c: seq<T>)
    ensures Flatten(chunks + [c]) == Flatten(chunks) + c
  {
    if chunks == [] {
      assert Flatten([c]) == c + Flatten<T>([]);
    } else {
      FlattenSnoc(chunks[1..], c);
      assert (chunks + [c])[1..] == chunks[1..] + [c];
      assert Flatten(chunks + [c]) == chunks[0] + Flatten(chunks[1..] + [c]);
      assert chunks[0] + (Flatten(chunks[1..]) + c) == (chunks[0] + Flatten(chunks[1..])) + c;
    }
  }

  // ---- powers of two, and bytes as bits and as numbers ----

  function Pow2(n: nat): (r: nat)
    ensures r > 0
  {
    if n == 0 then 1 else 2 * Pow2(n - 1)
  }

  /** Bit j of a byte, the most significant first. */
  function Weight(j: nat): Byte
    requires j < 8
  {
    if j == 0 then 0x80 else if j == 1 then 0x40 else if j == 2 then 0x20 else if j == 3 then 0x10
    else if j == 4 then 0x08 else if j == 5 then 0x04 else if j == 6 then 0x02 else 0x01
  }

  lemma WeightIsShift(j: nat)
    requires j < 8
    ensures (0x80 as Byte) >> j == Weight(j)
  {
    if j == 0 {} else if j == 1 {} else if j == 2 {} else if j == 3 {}
    else if j == 4 {} else if j == 5 {} else if j == 6 {} else {}
  }

  predicate ByteBit(b: Byte, j: nat)
    requires j < 8
  {
    b & Weight(j) != 0
  }

  function Nibble(b0: bool, b1: bool, b2: bool, b3: bool): (n: nat)
    ensures n < 16
  {
    (if b0 then 8 else 0) + (if b1 then 4 else 0) + (if b2 then 2 else 0) + (if b3 then 1 else 0)
  }

  /** A byte as a number, bit by bit. */
  function Num(b: Byte): (n: nat)
    ensures n < 256
  {
    16 * Nibble(ByteBit(b, 0), ByteBit(b, 1), ByteBit(b, 2), ByteBit(b, 3))
    + Nibble(ByteBit(b, 4), ByteBit(b, 5), ByteBit(b, 6), ByteBit(b, 7))
  }

  lemma NumIsConversion(b: Byte)
    ensures Num(b) == b as nat
  {
  }

  function Pack(b0: bool, b1: bool, b2: bool, b3: bool, b4: bool, b5: bool, b6: bool, b7: bool): (b: Byte)
    ensures ByteBit(b, 0) == b0 && ByteBit(b, 1) == b1 && ByteBit(b, 2) == b2 && ByteBit(b, 3) == b3
    ensures ByteBit(b, 4) == b4 && ByteBit(b, 5) == b5 && ByteBit(b, 6) == b6 && ByteBit(b, 7) == b7
  {
    (if b0 then 0x80 else 0) | (if b1 then 0x40 else 0) | (if b2 then 0x20 else 0) | (if b3 then 0x10 else 0)
    | (if b4 then 0x08 else 0) | (if b5 then 0x04 else 0) | (if b6 then 0x02 else 0) | (if b7 then 0x01 else 0)
  }

  lemma NibbleOf(n: nat)
    requires n < 16
    ensures Nibble(n >= 8, n % 8 >= 4, n % 4 >= 2, n % 2 == 1) == n
  {
  }

  /** The byte of a number, by its binary expansion. */
  function ByteOf(n: nat): (b: Byte)
    requires n < 256
    ensures Num(b) == n
  {
    hide Pack, ByteBit, Nibble;
    var h, l := n / 16, n % 16;
    NibbleOf(h);
    NibbleOf(l);
    Pack(h >= 8, h % 8 >= 4, h % 4 >= 2, h % 2 == 1, l >= 8, l % 8 >= 4, l % 4 >= 2, l % 2 == 1)
  }

  lemma NumUnique(a: Byte, b: Byte)
    requires Num(a) == Num(b)
    ensures a == b
  {
    NumIsConversion(a);
    NumIsConversion(b);
  }

  lemma SetBit(b: Byte, j: nat, k: nat)
    requires j < 8 && k < 8
    ensures ByteBit(b | Weight(j), k) <==> k == j || ByteBit(b, k)
  {
  }

  lemma BitsUnique(b: Byte, c: Byte)
    requires forall j :: 0 <= j < 8 ==> (ByteBit(b, j) <==> ByteBit(c, j))
    ensures b == c
  {
    assert forall j :: j in {0, 1, 2, 3, 4, 5, 6, 7} ==> (ByteBit(b, j) <==> ByteBit(c, j));
    assert ByteBit(b, 0) <==> ByteBit(c, 0);
    assert ByteBit(b, 1) <==> ByteBit(c, 1);
    assert ByteBit(b, 2) <==> ByteBit(c, 2);
    assert ByteBit(b, 3) <==> ByteBit(c, 3);
    assert ByteBit(b, 4) <==> ByteBit(c, 4);
    assert ByteBit(b, 5) <==> ByteBit(c, 5);
    assert ByteBit(b, 6) <==> ByteBit(c, 6);
    assert ByteBit(b, 7) <==> ByteBit(c, 7);
  }
}
