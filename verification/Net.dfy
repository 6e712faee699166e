/** IPv4 addresses and subnets, net.cc: an address is four bytes in network order. */
module Net {
  import opened Prelude

  type IP4 = raw: Bytes | |raw| == 4 witness [0, 0, 0, 0]

  const ZERO: IP4 := [0, 0, 0, 0]

  // ---- operators on the bytes ----

  function And(a: IP4, b: IP4): IP4 { [a[0] & b[0], a[1] & b[1], a[2] & b[2], a[3] & b[3]] }

  function Or(a: IP4, b: IP4): IP4 { [a[0] | b[0], a[1] | b[1], a[2] | b[2], a[3] | b[3]] }

  function Not(a: IP4): IP4 { [!a[0], !a[1], !a[2], !a[3]] }

  // ---- addresses as numbers ----

  function Digits(d0: nat, d1: nat, d2: nat, d3: nat): nat { d0 * 0x1000000 + d1 * 0x10000 + d2 * 0x100 + d3 }

  lemma DigitsUnique(a0: nat, a1: nat, a2: nat, a3: nat, b0: nat, b1: nat, b2: nat, b3: nat)
    requires a1 < 256 && a2 < 256 && a3 < 256 && b1 < 256 && b2 < 256 && b3 < 256
    requires Digits(a0, a1, a2, a3) == Digits(b0, b1, b2, b3)
    ensures a0 == b0 && a1 == b1 && a2 == b2 && a3 == b3
  {
  }

  lemma DigitsOf(v: U32)
    ensures v / 0x1000000 < 256
    ensures Digits(v / 0x1000000, v / 0x10000 % 0x100, v / 0x100 % 0x100, v % 0x100) == v
  {
    assert v / 0x100 / 0x100 == v / 0x10000;
    assert v / 0x10000 / 0x100 == v / 0x1000000;
  }

  /** The address read as a number, ntoh(uint32_t(ip)). */
  function Value(a: IP4): (v: nat)
    ensures v < 0x1_0000_0000
  {
    Digits(Num(a[0]), Num(a[1]), Num(a[2]), Num(a[3]))
  }

  function FromValue(v: U32): (a: IP4)
    ensures Value(a) == v
  {
    hide Num, ByteOf;
    DigitsOf(v);
    [ByteOf(v / 0x1000000), ByteOf(v / 0x10000 % 0x100), ByteOf(v / 0x100 % 0x100), ByteOf(v % 0x100)]
  }

  lemma {:induction false} ValueInjective(a: IP4, b: IP4)
    requires Value(a) == Value(b)
    ensures a == b
  {
    hide Num;
    DigitsUnique(Num(a[0]), Num(a[1]), Num(a[2]), Num(a[3]), Num(b[0]), Num(b[1]), Num(b[2]), Num(b[3]));
    NumUnique(a[0], b[0]);
    NumUnique(a[1], b[1]);
    NumUnique(a[2], b[2]);
    NumUnique(a[3], b[3]);
  }

  /** next(): the successor as an unsigned 32-bit number. */
  function Successor(a: IP4): IP4 { FromValue((Value(a) + 1) % 0x1_0000_0000) }

  // ---- prefixes ----

  predicate Bit(a: IP4, i: nat)
    requires i < 32
  {
    ByteBit(a[i / 8], i % 8)
  }

  /** The first p bits are ones, all others zeros. */
  predicate IsMask(a: IP4, p: int) {
    forall i :: 0 <= i < 32 ==> (Bit(a, i) <==> i < p)
  }

  /** Exactly the first n bits are ones before the first zero. */
  predicate LeadingOnes(a: IP4, n: nat) {
    n <= 32 && (forall j :: 0 <= j < n ==> Bit(a, j)) && (n < 32 ==> !Bit(a, n))
  }

  function WithBit(a: IP4, i: nat): IP4
    requires i < 32
  {
    a[i / 8 := a[i / 8] | Weight(i % 8)]
  }

  lemma BitOfWithBit(a: IP4, i: nat, k: nat)
    requires i < 32 && k < 32
    ensures Bit(WithBit(a, i), k) <==> k == i || Bit(a, k)
  {
    hide ByteBit, Weight;
    if k / 8 == i / 8 { SetBit(a[i / 8], i % 8, k % 8); }
  }

  lemma {:induction false} MaskGrows(a: IP4, i: nat)
    requires i < 32 && IsMask(a, i)
    ensures IsMask(WithBit(a, i), i + 1)
  {
    hide Bit, WithBit;
    forall k | 0 <= k < 32 ensures Bit(WithBit(a, i), k) <==> k < i + 1 {
      BitOfWithBit(a, i, k);
    }
  }

  lemma ZeroIsMask(p: int)
    requires p <= 0
    ensures IsMask(ZERO, p)
  {
  }

  lemma OnesAreMask(a: IP4, p: int)
    requires IsMask(a, 32) && p >= 32
    ensures IsMask(a, p)
  {
  }

  /**
   * Nothing stops the loop at the end of the four bytes: for a prefix over 32 it goes on to write `past` bits
   * behind them, which the array here does not hold.
   */
  method FromPrefix(raw: array<Byte>, prefix: int) returns (past: nat)
    requires raw.Length == 4
    modifies raw
    ensures IsMask(raw[..], prefix)
    ensures past == if prefix > 32 then prefix - 32 else 0
  {
    hide IsMask, Weight;
    raw[0], raw[1], raw[2], raw[3] := 0, 0, 0, 0;
    ZeroIsMask(0);
    ZeroIsMask(if prefix < 0 then prefix else 0);
    assert raw[..] == ZERO;
    past := 0;
    var i := 0;
    while i < prefix
      invariant 0 <= i && (i <= prefix || (i == 0 && IsMask(raw[..], prefix)))
      invariant IsMask(raw[..], if i < 32 then i else 32)
      invariant past == if i > 32 then i - 32 else 0
    {
      if i / 8 < raw.Length {
        MaskGrows(raw[..], i);
        WeightIsShift(i % 8);
        ghost var next := WithBit(raw[..], i);
        raw[i / 8] := raw[i / 8] | ((0x80 as Byte) >> (i % 8));
        assert raw[..] == next;
      } else {
        past := past + 1;
      }
      i := i + 1;
    }
    if prefix > 32 { OnesAreMask(raw[..], prefix); }
  }

  method ToPrefix(raw: IP4) returns (i: nat)
    ensures LeadingOnes(raw, i)
  {
    i := 0;
    while i < 32
      invariant i <= 32 && forall j :: 0 <= j < i ==> Bit(raw, j)
    {
      WeightIsShift(i % 8);
      if raw[i / 8] & ((0x80 as Byte) >> (i % 8)) == 0 { break; }
      i := i + 1;
    }
  }

  lemma {:induction false} SameBits(a: IP4, b: IP4)
    requires forall i :: 0 <= i < 32 ==> (Bit(a, i) <==> Bit(b, i))
    ensures a == b
  {
    forall k | 0 <= k < 4 ensures a[k] == b[k] {
      forall j | 0 <= j < 8 ensures ByteBit(a[k], j) <==> ByteBit(b[k], j) {
        assert Bit(a, 8 * k + j) <==> Bit(b, 8 * k + j);
      }
      BitsUnique(a[k], b[k]);
    }
  }

  /** toPrefix gives back the prefix that fromPrefix wrote. */
  lemma {:induction false} PrefixRoundTrip(m: IP4, p: nat, n: nat)
    requires p <= 32 && IsMask(m, p) && LeadingOnes(m, n)
    ensures n == p
  {
    assert n < 32 ==> (Bit(m, n) <==> n < p);
    assert p < 32 ==> !Bit(m, p);
  }

  /** Conversely a mask survives being written as a prefix exactly if none of its ones follows a zero. */
  lemma {:induction false} MaskRoundTrip(m: IP4, n: nat, back: IP4)
    requires LeadingOnes(m, n) && IsMask(back, n)
    ensures back == m <==> forall i, j :: 0 <= i < j < 32 && Bit(m, j) ==> Bit(m, i)
  {
    if forall i, j :: 0 <= i < j < 32 && Bit(m, j) ==> Bit(m, i) {
      forall j | 0 <= j < 32 ensures Bit(back, j) <==> Bit(m, j) {
        assert n < 32 ==> !Bit(m, n);
      }
      SameBits(back, m);
    }
  }
}
