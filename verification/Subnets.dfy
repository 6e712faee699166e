/**
 * Address of net.cc, a host and a mask, and what its byte-wise arithmetic means for numbers: with the mask of
 * fromPrefix(p) the addresses of a subnet are one block of 2^(32-p) numbers, and Next() walks round it.
 */
module Subnets {
  import opened Prelude
  import opened Net

  datatype Address = Address(host: IP4, mask: IP4) {
    function Net(): IP4 { And(host, mask) }

    function Next(): Address { Address(Or(Net(), And(Not(mask), Successor(host))), mask) }

    predicate IsValid() { And(Not(mask), host) != ZERO && Not(Or(mask, host)) != ZERO }

    predicate Empty() { host == ZERO && mask == ZERO }
  }

  lemma {:induction false} Pow2Add(m: nat, n: nat)
    ensures Pow2(m + n) == Pow2(m) * Pow2(n)
  {
    if m == 0 {
    } else {
      Pow2Add(m - 1, n);
      assert Pow2(m + n) == 2 * Pow2(m + n - 1);
      assert 2 * (Pow2(m - 1) * Pow2(n)) == (2 * Pow2(m - 1)) * Pow2(n);
    }
  }

  /** The number of addresses in a subnet with prefix p. */
  function Size(p: nat): nat
    requires p <= 32
  {
    Pow2(32 - p)
  }

  // ---- numbers from bits ----

  /** The number made of the first k bits of an address, and the number made of the others. */
  function High(a: IP4, k: nat): nat
    requires k <= 32
  {
    if k == 0 then 0 else 2 * High(a, k - 1) + (if Bit(a, k - 1) then 1 else 0)
  }

  function Low(a: IP4, k: nat): (n: nat)
    requires k <= 32
    ensures n < Pow2(32 - k)
    decreases 32 - k
  {
    if k == 32 then 0 else (if Bit(a, k) then Pow2(31 - k) else 0) + Low(a, k + 1)
  }

  /** Two more bits of byte i. */
  lemma {:induction false} TwoBits(a: IP4, i: nat, j: nat)
    requires i < 4 && j < 7
    ensures High(a, 8 * i + j + 2) == 4 * High(a, 8 * i + j)
              + (if ByteBit(a[i], j) then 2 else 0) + (if ByteBit(a[i], j + 1) then 1 else 0)
  {
    assert (8 * i + j) / 8 == i && (8 * i + j) % 8 == j;
    assert (8 * i + j + 1) / 8 == i && (8 * i + j + 1) % 8 == j + 1;
  }

  lemma {:induction false} FourBits(a: IP4, i: nat, j: nat)
    requires i < 4 && (j == 0 || j == 4)
    ensures High(a, 8 * i + j + 4) == 0x10 * High(a, 8 * i + j)
              + Nibble(ByteBit(a[i], j), ByteBit(a[i], j + 1), ByteBit(a[i], j + 2), ByteBit(a[i], j + 3))
  {
    hide ByteBit, High, Bit;
    TwoBits(a, i, j);
    TwoBits(a, i, j + 2);
  }

  lemma {:induction false} HighOfByte(a: IP4, i: nat)
    requires i < 4
    ensures High(a, 8 * i + 8) == 0x100 * High(a, 8 * i) + Num(a[i])
  {
    hide ByteBit, High, Bit, Nibble;
    FourBits(a, i, 0);
    FourBits(a, i, 4);
  }

  lemma {:induction false} HighIsValue(a: IP4)
    ensures High(a, 32) == Value(a)
  {
    HighOfByte(a, 0);
    HighOfByte(a, 1);
    HighOfByte(a, 2);
    HighOfByte(a, 3);
    assert High(a, 0) == 0;
  }

  lemma MoveBit(h: int, bit: int, m: int)
    ensures (2 * h + bit) * m == h * (2 * m) + bit * m
  {
  }

  lemma LowStep(a: IP4, k: nat)
    requires k <= 32
    ensures k == 32 ==> Low(a, k) == 0 && Pow2(32 - k) == 1
    ensures k < 32 ==> Low(a, k) == (if Bit(a, k) then Pow2(31 - k) else 0) + Low(a, k + 1)
    ensures k < 32 ==> Pow2(32 - k) == 2 * Pow2(31 - k)
  {
    hide Bit;
  }

  lemma {:induction false} SplitHigh(a: IP4, k: nat)
    requires k <= 32
    ensures High(a, 32) == High(a, k) * Pow2(32 - k) + Low(a, k)
    decreases 32 - k
  {
    hide Bit, Low, Pow2;
    LowStep(a, k);
    if k < 32 {
      SplitHigh(a, k + 1);
      MoveBit(High(a, k), if Bit(a, k) then 1 else 0, Pow2(31 - k));
    }
  }

  lemma ProductAtLeast(d: int, m: nat)
    requires m > 0
    ensures d > 0 ==> d * m >= m
    ensures d < 0 ==> d * m + m <= 0
  {
  }

  lemma ModUnique(x: nat, m: nat, q: nat, r: nat)
    requires x == q * m + r && r < m
    ensures x % m == r
  {
    var d := x / m - q;
    ProductAtLeast(d, m);
    assert x == m * (x / m) + x % m;
    assert d * m == (x / m) * m - q * m;
  }

  /** The host part of an address is its number modulo the size of the subnet. */
  lemma Split(a: IP4, p: nat)
    requires p <= 32
    ensures Value(a) == High(a, p) * Size(p) + Low(a, p)
    ensures Low(a, p) == Value(a) % Size(p)
  {
    HighIsValue(a);
    SplitHigh(a, p);
    ModUnique(Value(a), Size(p), High(a, p), Low(a, p));
  }

  lemma {:induction false} SameHigh(a: IP4, b: IP4, k: nat)
    requires k <= 32 && forall j :: 0 <= j < k ==> (Bit(a, j) <==> Bit(b, j))
    ensures High(a, k) == High(b, k)
  {
    if k > 0 { SameHigh(a, b, k - 1); }
  }

  lemma {:induction false} SameLow(a: IP4, b: IP4, k: nat)
    requires k <= 32 && forall j :: k <= j < 32 ==> (Bit(a, j) <==> Bit(b, j))
    ensures Low(a, k) == Low(b, k)
    decreases 32 - k
  {
    if k < 32 { SameLow(a, b, k + 1); }
  }

  lemma {:induction false} OppositeLow(a: IP4, b: IP4, k: nat)
    requires k <= 32 && forall j :: k <= j < 32 ==> (Bit(a, j) <==> !Bit(b, j))
    ensures Low(a, k) + Low(b, k) == Pow2(32 - k) - 1
    decreases 32 - k
  {
    hide Bit, Low, Pow2;
    LowStep(a, k);
    LowStep(b, k);
    if k < 32 { OppositeLow(a, b, k + 1); }
  }

  lemma {:induction false} NoHigh(a: IP4, k: nat)
    requires k <= 32 && forall j :: 0 <= j < k ==> !Bit(a, j)
    ensures High(a, k) == 0
  {
    if k > 0 { NoHigh(a, k - 1); }
  }

  lemma {:induction false} NoLow(a: IP4, k: nat)
    requires k <= 32 && forall j :: k <= j < 32 ==> !Bit(a, j)
    ensures Low(a, k) == 0
    decreases 32 - k
  {
    if k < 32 { NoLow(a, k + 1); }
  }

  // ---- bits of the operators ----

  lemma OperatorBits(a: IP4, b: IP4, i: nat)
    requires i < 32
    ensures Bit(And(a, b), i) <==> Bit(a, i) && Bit(b, i)
    ensures Bit(Or(a, b), i) <==> Bit(a, i) || Bit(b, i)
    ensures Bit(Not(a), i) <==> !Bit(a, i)
  {
  }

  /** `a` under the mask and `b` outside it. */
  function Merged(a: IP4, b: IP4, m: IP4): IP4 { Or(And(a, m), And(Not(m), b)) }

  lemma {:induction false} MergedParts(a: IP4, b: IP4, m: IP4, p: nat)
    requires p <= 32 && IsMask(m, p)
    ensures High(Merged(a, b, m), p) == High(a, p) && Low(Merged(a, b, m), p) == Low(b, p)
    ensures Value(Merged(a, b, m)) == High(a, p) * Size(p) + Low(b, p)
  {
    forall i | 0 <= i < 32 ensures Bit(Merged(a, b, m), i) <==> if i < p then Bit(a, i) else Bit(b, i) {
      OperatorBits(a, m, i);
      OperatorBits(m, ZERO, i);
      OperatorBits(Not(m), b, i);
      OperatorBits(And(a, m), And(Not(m), b), i);
    }
    SameHigh(Merged(a, b, m), a, p);
    SameLow(Merged(a, b, m), b, p);
    Split(Merged(a, b, m), p);
  }

  // ---- what the operations mean ----

  lemma {:induction false} NetParts(a: Address, p: nat)
    requires p <= 32 && IsMask(a.mask, p)
    ensures High(a.Net(), p) == High(a.host, p) && Low(a.Net(), p) == 0
  {
    forall i | 0 <= i < 32 ensures Bit(a.Net(), i) <==> i < p && Bit(a.host, i) {
      OperatorBits(a.host, a.mask, i);
    }
    SameHigh(a.Net(), a.host, p);
    NoLow(a.Net(), p);
  }

  lemma {:induction false} NetValue(a: Address, p: nat)
    requires p <= 32 && IsMask(a.mask, p)
    ensures Value(a.Net()) == Value(a.host) - Value(a.host) % Size(p)
  {
    NetParts(a, p);
    Split(a.Net(), p);
    Split(a.host, p);
  }

  lemma Pow2Of32()
    ensures Pow2(32) == 0x1_0000_0000
  {
    assert Pow2(8) == 256 by { assert Pow2(4) == 16; }
    Pow2Add(8, 8);
    Pow2Add(16, 16);
  }

  lemma ModStep(x: nat, m: nat)
    requires m > 0
    ensures (x % m + 1) % m == (x + 1) % m
  {
    var r := x % m + 1;
    if r < m {
      ModUnique(x + 1, m, x / m, r);
      ModUnique(r, m, 0, r);
    } else {
      ModUnique(x + 1, m, x / m + 1, 0);
      ModUnique(r, m, 1, 0);
    }
  }

  /** Going on from a number wraps at w, a multiple of m. */
  lemma WrapStep(v: nat, s: nat, w: nat, q: nat, m: nat)
    requires m > 0 && w == q * m && v < w && s == if v + 1 == w then 0 else v + 1
    ensures s % m == (v % m + 1) % m
  {
    ModStep(v, m);
    if v + 1 == w {
      ModUnique(w, m, q, 0);
      ModUnique(0, m, 0, 0);
    }
  }

  lemma SuccessorIsNext(a: IP4)
    ensures Value(Successor(a)) == if Value(a) + 1 == 0x1_0000_0000 then 0 else Value(a) + 1
  {
    hide FromValue, Value;
  }

  lemma {:induction false} SuccessorLow(a: IP4, p: nat)
    requires p <= 32
    ensures Low(Successor(a), p) == (Low(a, p) + 1) % Size(p)
  {
    hide Successor, Value, High, Low, Pow2;
    var v, s := Value(a), Value(Successor(a));
    Split(Successor(a), p);
    Split(a, p);
    SuccessorIsNext(a);
    Pow2Of32();
    Pow2Add(p, 32 - p);
    WrapStep(v, s, 0x1_0000_0000, Pow2(p), Size(p));
  }

  lemma {:induction false} NextParts(a: Address, p: nat)
    requires p <= 32 && IsMask(a.mask, p)
    ensures a.Next().mask == a.mask
    ensures High(a.Next().host, p) == High(a.host, p)
    ensures Low(a.Next().host, p) == (Low(a.host, p) + 1) % Size(p)
  {
    hide And, Or, Not, Successor, High, Low;
    assert a.Next().host == Merged(a.host, Successor(a.host), a.mask);
    MergedParts(a.host, Successor(a.host), a.mask, p);
    SuccessorLow(a.host, p);
  }

  /** isValid: the host part is neither all zeros nor all ones. */
  lemma {:induction false} ValidExactly(a: Address, p: nat)
    requires p <= 32 && IsMask(a.mask, p)
    ensures a.IsValid() <==> 0 < Value(a.host) % Size(p) < Size(p) - 1
  {
    var inside, outside := And(Not(a.mask), a.host), Not(Or(a.mask, a.host));
    forall i | 0 <= i < 32
      ensures Bit(inside, i) <==> i >= p && Bit(a.host, i)
      ensures Bit(outside, i) <==> i >= p && !Bit(a.host, i)
    {
      OperatorBits(a.mask, a.host, i);
      OperatorBits(Not(a.mask), a.host, i);
      OperatorBits(Or(a.mask, a.host), ZERO, i);
    }
    NoHigh(inside, p);
    SameLow(inside, a.host, p);
    NoHigh(outside, p);
    OppositeLow(outside, a.host, p);
    Split(inside, p);
    Split(outside, p);
    Split(a.host, p);
    IsZero(inside);
    IsZero(outside);
  }

  lemma IsZero(a: IP4)
    ensures a == ZERO <==> Value(a) == 0
  {
    if Value(a) == 0 {
      assert Value(ZERO) == 0;
      ValueInjective(a, ZERO);
    }
  }

  // ---- the walk of Next() ----

  function Nth(a: Address, k: nat): Address {
    if k == 0 then a else Nth(a, k - 1).Next()
  }

  lemma {:induction false} NthParts(a: Address, p: nat, k: nat)
    requires p <= 32 && IsMask(a.mask, p)
    ensures Nth(a, k).mask == a.mask
    ensures High(Nth(a, k).host, p) == High(a.host, p)
    ensures Low(Nth(a, k).host, p) == (Low(a.host, p) + k) % Size(p)
  {
    hide Address.Next, High, Low, Pow2;
    if k == 0 {
      ModUnique(Low(a.host, p), Size(p), 0, Low(a.host, p));
    } else {
      NthParts(a, p, k - 1);
      NextParts(Nth(a, k - 1), p);
      ModStep(Low(a.host, p) + k - 1, Size(p));
    }
  }

  lemma {:induction false} PartsUnique(a: IP4, b: IP4, p: nat)
    requires p <= 32 && High(a, p) == High(b, p) && Low(a, p) == Low(b, p)
    ensures a == b
  {
    Split(a, p);
    Split(b, p);
    ValueInjective(a, b);
  }

  lemma {:induction false} SameNet(a: Address, b: Address, p: nat)
    requires p <= 32 && IsMask(a.mask, p) && a.mask == b.mask
    ensures a.Net() == b.Net() <==> High(a.host, p) == High(b.host, p)
  {
    NetParts(a, p);
    NetParts(b, p);
    if High(a.host, p) == High(b.host, p) { PartsUnique(a.Net(), b.Net(), p); }
  }

  /** Where the k-th address of the walk from a host lies: all in the host's subnet, wrapping at its end. */
  lemma {:induction false} NthValue(a: Address, p: nat, k: nat)
    requires p <= 32 && IsMask(a.mask, p)
    ensures Nth(a, k).mask == a.mask && Nth(a, k).Net() == a.Net()
    ensures Value(Nth(a, k).host) == Value(a.Net()) + (Value(a.host) - Value(a.Net()) + k) % Size(p)
  {
    hide High, Low, Value, Pow2, Nth;
    NthParts(a, p, k);
    SameNet(Nth(a, k), a, p);
    NetValue(a, p);
    Split(a.host, p);
    Split(Nth(a, k).host, p);
  }

  lemma RemaindersMeet(m: nat, q1: int, r1: nat, q2: int, r2: nat, q3: int, r3: nat)
    requires r1 < m && r2 < m && r3 < m && (q1 * m + r1) + (q3 * m + r3) == q2 * m + r2
    ensures r1 == r2 <==> r3 == 0
  {
    var d := q1 + q3 - q2;
    assert d * m == q1 * m + q3 * m - q2 * m;
    ProductAtLeast(d, m);
  }

  lemma ModDifference(m: nat, x: nat, d: nat)
    requires m > 0
    ensures x % m == (x + d) % m <==> d % m == 0
  {
    RemaindersMeet(m, x / m, x % m, (x + d) / m, (x + d) % m, d / m, d % m);
  }

  /** Next() is one cycle: two steps of the walk meet exactly when they are a multiple of the subnet size apart. */
  lemma {:induction false} OneCycle(a: Address, p: nat, j: nat, k: nat)
    requires p <= 32 && IsMask(a.mask, p) && j <= k
    ensures Nth(a, j) == Nth(a, k) <==> (k - j) % Size(p) == 0
  {
    hide High, Low, Value, Pow2, Nth;
    NthParts(a, p, j);
    NthParts(a, p, k);
    ModDifference(Size(p), Low(a.host, p) + j, k - j);
    if (k - j) % Size(p) == 0 { PartsUnique(Nth(a, j).host, Nth(a, k).host, p); }
  }

  /** The walk reaches every address of the subnet within one round, and no other. */
  lemma {:induction false} CycleCovers(a: Address, p: nat, host: IP4)
    requires p <= 32 && IsMask(a.mask, p)
    ensures Address(host, a.mask).Net() == a.Net() <==> exists k: nat :: k < Size(p) && Nth(a, k).host == host
  {
    hide High, Low, Value, Pow2, Nth;
    var m := Size(p);
    SameNet(Address(host, a.mask), a, p);
    if Address(host, a.mask).Net() == a.Net() {
      var o, t := Low(a.host, p), Low(host, p);
      var k: nat := if t >= o then t - o else m - (o - t);
      ModUnique(o + k, m, if t >= o then 0 else 1, t);
      NthParts(a, p, k);
      PartsUnique(Nth(a, k).host, host, p);
    }
    if k: nat :| k < m && Nth(a, k).host == host {
      NthParts(a, p, k);
    }
  }

  // ---- blocks ----

  lemma AndCommutes(a: IP4, b: IP4)
    ensures And(a, b) == And(b, a)
  {
  }

  lemma Blocks(h: nat, g: nat, m: nat, l: nat)
    requires l < m
    ensures h == g <==> g * m <= h * m + l < g * m + m
  {
    ProductAtLeast(h - g, m);
    assert (h - g) * m == h * m - g * m;
  }

  /** For an address that is its own network, an address is in that network exactly if its number is in the block. */
  lemma {:induction false} BlockExactly(ip: IP4, net: Address, p: nat)
    requires p <= 32 && IsMask(net.mask, p) && net.host == net.Net()
    ensures And(ip, net.mask) == net.host <==> Value(net.host) <= Value(ip) < Value(net.host) + Size(p)
  {
    hide Value, High, Low, IsMask, Pow2;
    SameNet(Address(ip, net.mask), net, p);
    NetParts(net, p);
    Split(ip, p);
    Split(net.host, p);
    Blocks(High(ip, p), High(net.host, p), Size(p), Low(ip, p));
  }
}
