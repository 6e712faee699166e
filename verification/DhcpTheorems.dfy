/**
 * What the address search does and does not promise. Its loop goes on while an address is both invalid and
 * taken, so it may hand out an address that is taken, or one that is invalid.
 */
module DhcpTheorems {
  import opened Prelude
  import opened Net
  import opened Subnets
  import opened Dhcp

  lemma {:induction false} FirstStopIs(a: Address, taken: set<IP4>, k: nat, size: nat)
    ensures match FirstStop(a, taken, k, size)
            case Some(i) =>
              && k <= i < size && Stops(Nth(a, i), taken)
              && forall j :: k <= j < i ==> !Stops(Nth(a, j), taken)
            case None => forall j :: k <= j < size ==> !Stops(Nth(a, j), taken)
    decreases size - k
  {
    hide Stops, Nth;
    if k < size && !Stops(Nth(a, k), taken) { FirstStopIs(a, taken, k + 1, size); }
  }

  /**
   * An address assigned lies in the DHCP subnet, differs from the previous cursor, and is the first of the walk
   * from the cursor that is valid or free. If there is none, every other address of the subnet is invalid and taken.
   */
  lemma {:induction false} SearchResult(a: Address, taken: set<IP4>, p: nat)
    requires p <= 32 && IsMask(a.mask, p)
    ensures match Search(a, taken, p)
            case Some(b) =>
              && b.mask == a.mask && b.Net() == a.Net() && b.host != a.host
              && exists k: nat :: 1 <= k < Size(p) && b == Nth(a, k) && Stops(b, taken)
                                  && forall j :: 1 <= j < k ==> !Stops(Nth(a, j), taken)
            case None =>
              forall h: IP4 :: h != a.host && Address(h, a.mask).Net() == a.Net() ==>
                !Address(h, a.mask).IsValid() && h in taken
  {
    hide Nth, Stops, Address.Net, Address.IsValid, IsMask, Pow2, Value;
    FirstStopIs(a, taken, 1, Size(p));
    match FirstStop(a, taken, 1, Size(p))
    case Some(k) =>
      RoundEnds(a, p, k);
      NthValue(a, p, k);
    case None =>
      forall h: IP4 | h != a.host && Address(h, a.mask).Net() == a.Net()
        ensures !Stops(Address(h, a.mask), taken)
      {
        CycleCovers(a, p, h);
        var k: nat :| k < Size(p) && Nth(a, k).host == h;
        NthValue(a, p, k);
        NthZero(a);
        assert Nth(a, k) == Address(h, a.mask);
      }
      StopsMeans(a.mask, taken);
  }

  lemma StopsMeans(mask: IP4, taken: set<IP4>)
    ensures forall h: IP4 :: Stops(Address(h, mask), taken) <==> Address(h, mask).IsValid() || h !in taken
  {
    hide Address.IsValid;
  }

  // ---- how far the search goes ----

  /** Host parts of successive addresses, and which of them are valid. */
  lemma {:induction false} NextOffset(a: Address, p: nat)
    requires p <= 32 && IsMask(a.mask, p)
    ensures a.Next().mask == a.mask
    ensures Low(a.Next().host, p) == if Low(a.host, p) + 1 == Size(p) then 0 else Low(a.host, p) + 1
    ensures a.IsValid() <==> 0 < Low(a.host, p) < Size(p) - 1
  {
    hide Address.Next, Address.IsValid, Value, High, IsMask, Pow2;
    NextParts(a, p);
    ValidExactly(a, p);
    Split(a.host, p);
    var o, m := Low(a.host, p), Size(p);
    ModUnique(o + 1, m, if o + 1 == m then 1 else 0, if o + 1 == m then 0 else o + 1);
  }

  lemma SizeOf(p: nat)
    requires p <= 32
    ensures p == 32 ==> Size(p) == 1
    ensures p == 31 ==> Size(p) == 2
    ensures p <= 30 ==> Size(p) >= 4
  {
    if p <= 30 { assert Pow2(31 - p) == 2 * Pow2(30 - p); }
    if p == 31 { assert Pow2(0) == 1; }
  }

  /** In a subnet of at least four addresses one of any three in a row is valid. */
  lemma {:induction false} OneInThree(a: Address, p: nat)
    requires p <= 32 && IsMask(a.mask, p)
    ensures p <= 30 ==> a.Next().IsValid() || a.Next().Next().IsValid() || a.Next().Next().Next().IsValid()
    ensures p > 30 ==> !a.Next().IsValid() && !a.Next().Next().IsValid() && !a.Next().Next().Next().IsValid()
  {
    hide Address.Next, Address.IsValid, Low, IsMask, Pow2;
    SizeOf(p);
    NextOffset(a, p);
    NextOffset(a.Next(), p);
    NextOffset(a.Next().Next(), p);
    NextOffset(a.Next().Next().Next(), p);
  }

  lemma StopsAt(a: Address, taken: set<IP4>, k: nat, size: nat)
    ensures FirstStop(a, taken, k, size) == if k >= size then None else if Stops(Nth(a, k), taken) then Some(k)
                                            else FirstStop(a, taken, k + 1, size)
  {
  }

  /** The search looks at three addresses at most, and in closed form: */
  lemma {:induction false} SearchClosed(a: Address, taken: set<IP4>, p: nat)
    requires p <= 32 && IsMask(a.mask, p)
    ensures var c1, c2, c3 := a.Next(), a.Next().Next(), a.Next().Next().Next();
            Search(a, taken, p) == if p == 32 then None
                                   else if Stops(c1, taken) then Some(c1)
                                   else if p == 31 then None
                                   else if Stops(c2, taken) then Some(c2) else Some(c3)
  {
    hide Address.Next, Address.IsValid, IsMask, Size;
    SizeOf(p);
    OneInThree(a, p);
    assert Nth(a, 1) == a.Next() && Nth(a, 2) == a.Next().Next();
    assert Nth(a, 3) == Nth(a, 2).Next();
    var m := Size(p);
    StopsAt(a, taken, 3, m);
    StopsAt(a, taken, 2, m);
    StopsAt(a, taken, 1, m);
  }

  /** "All addresses are assigned" is reported for a one-address subnet, and a two-address one with the other taken. */
  lemma {:induction false} ExhaustedExactly(a: Address, taken: set<IP4>, p: nat)
    requires p <= 32 && IsMask(a.mask, p)
    ensures Search(a, taken, p) == None <==> p == 32 || (p == 31 && a.Next().host in taken)
  {
    hide Address.Next, Address.IsValid, IsMask, Search;
    SearchClosed(a, taken, p);
    OneInThree(a, p);
  }

  // ---- when the address assigned is one that should be ----

  predicate FreeAndValid(found: Option<Address>, taken: set<IP4>) {
    found.Some? && found.value.IsValid() && found.value.host !in taken
  }

  /** The address after `a` is valid and free - or both invalid and taken, and then likewise the one after it. */
  predicate GoodAhead(a: Address, taken: set<IP4>, n: nat)
    decreases n
  {
    hide Address.Next, Address.IsValid;
    n > 0 &&
    var b := a.Next();
    if b.IsValid() then b.host !in taken else b.host in taken && GoodAhead(b, taken, n - 1)
  }

  /** The exact condition for the assigned address to be valid and free. */
  lemma {:induction false} GoodExactly(a: Address, taken: set<IP4>, p: nat)
    requires p <= 32 && IsMask(a.mask, p)
    ensures FreeAndValid(Search(a, taken, p), taken) <==> GoodAhead(a, taken, 3)
  {
    hide Address.Next, Address.IsValid, IsMask, Search;
    SearchClosed(a, taken, p);
    OneInThree(a, p);
    var c1, c2, c3 := a.Next(), a.Next().Next(), a.Next().Next().Next();
    assert GoodAhead(c2, taken, 1) <==> c3.IsValid() && c3.host !in taken;
    assert GoodAhead(c1, taken, 2) <==>
      if c2.IsValid() then c2.host !in taken else c2.host in taken && GoodAhead(c2, taken, 1);
  }

  lemma Mask24(m: IP4)
    requires m == [255, 255, 255, 0]
    ensures IsMask(m, 24)
  {
    forall i | 0 <= i < 32 ensures Bit(m, i) <==> i < 24 {
      if i / 8 == 3 { assert !ByteBit(0, i % 8); } else { assert ByteBit(255, i % 8); }
    }
  }

  lemma FourNumbers()
    ensures Num(1) == 1 && Num(2) == 2 && Num(254) == 254 && Num(255) == 255
  {
  }

  lemma LastByte(a: IP4, b: IP4)
    requires a[0] == b[0] && a[1] == b[1] && a[2] == b[2]
    requires (a[3] == 1 && b[3] == 2) || (a[3] == 254 && b[3] == 255)
    ensures Value(b) == Value(a) + 1
  {
    hide Num;
    FourNumbers();
  }

  lemma NextIs(a: Address, p: nat, host: IP4)
    requires p <= 32 && IsMask(a.mask, p) && a.IsValid() && Value(host) == Value(a.host) + 1
    ensures a.Next() == Address(host, a.mask)
  {
    hide Address.Next, Address.IsValid, IsMask, Value, High, Low, Pow2;
    NextParts(a, p);
    NextOffset(a, p);
    Split(a.host, p);
    Split(a.Next().host, p);
    ValueInjective(a.Next().host, host);
  }

  /** 10.0.0.2 is taken; a search from the cursor 10.0.0.1/24 assigns it all the same. */
  lemma TakenAddressAssigned()
    ensures var a := Address([10, 0, 0, 1], [255, 255, 255, 0]);
            IsMask(a.mask, 24) && Search(a, {[10, 0, 0, 2]}, 24) == Some(Address([10, 0, 0, 2], a.mask))
  {
    hide Value, IsMask, Num, Address.Next, Search;
    var a := Address([10, 0, 0, 1], [255, 255, 255, 0]);
    Mask24(a.mask);
    LastByte([10, 0, 0, 1], [10, 0, 0, 2]);
    NextIs(a, 24, [10, 0, 0, 2]);
    SearchClosed(a, {[10, 0, 0, 2]}, 24);
    assert Address([10, 0, 0, 2], a.mask).IsValid();
  }

  /** And from the cursor 10.0.0.254/24 it assigns the broadcast address 10.0.0.255, with nothing taken at all. */
  lemma InvalidAddressAssigned()
    ensures var a, b := Address([10, 0, 0, 254], [255, 255, 255, 0]), Address([10, 0, 0, 255], [255, 255, 255, 0]);
            IsMask(a.mask, 24) && Search(a, {}, 24) == Some(b) && !b.IsValid()
  {
    hide Value, IsMask, Num, Address.Next, Search;
    var a := Address([10, 0, 0, 254], [255, 255, 255, 0]);
    Mask24(a.mask);
    LastByte([10, 0, 0, 254], [10, 0, 0, 255]);
    NextIs(a, 24, [10, 0, 0, 255]);
    SearchClosed(a, {}, 24);
    assert !Address([10, 0, 0, 255], a.mask).IsValid();
  }

  // ---- runs ----

  /** Nobody is logged in under an address of the subnet that is not valid: a network or broadcast address. */
  ghost predicate Ordinary(a: Address, taken: set<IP4>) {
    forall h :: h in taken && Address(h, a.mask).Net() == a.Net() ==> Address(h, a.mask).IsValid()
  }

  /** Then the search takes the next address, whatever it is; it is a good one exactly if it is valid and not taken. */
  lemma {:induction false} OrdinarySearch(a: Address, taken: set<IP4>, p: nat)
    requires p < 32 && IsMask(a.mask, p) && Ordinary(a, taken)
    ensures Search(a, taken, p) == Some(a.Next())
    ensures FreeAndValid(Search(a, taken, p), taken) <==> a.Next().IsValid() && a.Next().host !in taken
  {
    hide Address.Next, Address.IsValid, Address.Net, IsMask, Search, Size, Low, High, Value;
    NthValue(a, p, 1);
    var b := Nth(a, 1);
    assert b == a.Next() && Address(b.host, a.mask) == b;
    SearchClosed(a, taken, p);
  }

  /** The cursor after a search against each of the tables in turn. */
  function Cursor(a: Address, tables: seq<set<IP4>>, p: nat): Address
    requires p <= 32
  {
    if tables == [] then a else
    var before := Cursor(a, tables[..|tables| - 1], p);
    match Search(before, tables[|tables| - 1], p)
    case Some(b) => b
    case None => before
  }

  /** Then each search moves the cursor by one address, whether or not that address is taken. */
  lemma {:induction false} CursorWalks(a: Address, tables: seq<set<IP4>>, p: nat)
    requires p < 32 && IsMask(a.mask, p) && forall taken :: taken in tables ==> Ordinary(a, taken)
    ensures Cursor(a, tables, p) == Nth(a, |tables|)
  {
    hide Address.Next, Address.IsValid, Address.Net, IsMask, Search, Size, Low, High, Value;
    if tables != [] {
      var n := |tables| - 1;
      CursorWalks(a, tables[..n], p);
      NthValue(a, p, n);
      assert tables[n] in tables && Ordinary(a, tables[n]);
      OrdinarySearch(Nth(a, n), tables[n], p);
    }
  }

  /** So two searches assign the same address exactly if they are a multiple of the subnet size apart. */
  lemma {:induction false} AssignmentsRepeat(a: Address, tables: seq<set<IP4>>, p: nat, i: nat, j: nat)
    requires p < 32 && IsMask(a.mask, p) && forall taken :: taken in tables ==> Ordinary(a, taken)
    requires i <= j <= |tables|
    ensures Cursor(a, tables[..i], p) == Cursor(a, tables[..j], p) <==> (j - i) % Size(p) == 0
  {
    hide Nth, Cursor, Ordinary, IsMask, Size;
    CursorWalks(a, tables[..i], p);
    CursorWalks(a, tables[..j], p);
    OneCycle(a, p, i, j);
  }

  // ---- addresses granted as asked for ----

  /**
   * A request is granted as asked for if its network equals the DHCP network, each taken under its own mask.
   * That keeps addresses inside the DHCP subnet exactly if the mask asked with is no shorter, or cuts off a
   * one of the DHCP network.
   */
  lemma {:induction false} DirectInSubnet(dhcp: Address, p: nat, mask: IP4, q: nat)
    requires p <= 32 && q <= 32 && IsMask(dhcp.mask, p) && IsMask(mask, q)
    ensures (forall host: IP4 ::
               Address(host, mask).Net() == dhcp.Net() ==> Address(host, dhcp.mask).Net() == dhcp.Net())
       <==> (q >= p || exists i :: q <= i < 32 && Bit(dhcp.Net(), i))
  {
    var n := dhcp.Net();
    if q >= p || exists i :: q <= i < 32 && Bit(n, i) {
      forall host: IP4 | Address(host, mask).Net() == n ensures Address(host, dhcp.mask).Net() == n {
        NetBits(host, mask, q);
        NetBits(host, dhcp.mask, p);
        NetBits(dhcp.host, dhcp.mask, p);
        SameBits(Address(host, dhcp.mask).Net(), n);
      }
    } else {
      var host := WithBit(n, q);
      forall i | 0 <= i < 32 ensures Bit(host, i) <==> Bit(n, i) || i == q {
        BitOfWithBit(n, q, i);
      }
      NetBits(host, mask, q);
      NetBits(host, dhcp.mask, p);
      SameBits(Address(host, mask).Net(), n);
      assert Bit(Address(host, dhcp.mask).Net(), q);
    }
  }

  /** Under 10.0.0.1/24 a client that asks for 10.0.5.5/16 is granted it, outside the DHCP subnet. */
  lemma DirectOutsideSubnet()
    ensures var dhcp, expt := Address([10, 0, 0, 1], [255, 255, 255, 0]), Address([10, 0, 5, 5], [255, 255, 0, 0]);
            Direct(dhcp, map[], [], expt) && Address(expt.host, dhcp.mask).Net() != dhcp.Net()
  {
    var dhcp, expt := Address([10, 0, 0, 1], [255, 255, 255, 0]), Address([10, 0, 5, 5], [255, 255, 0, 0]);
    assert dhcp.Net() == [10, 0, 0, 0] && Address(expt.host, dhcp.mask).Net()[2] == 5;
  }

  lemma {:induction false} NetBits(host: IP4, mask: IP4, p: nat)
    requires p <= 32 && IsMask(mask, p)
    ensures forall i :: 0 <= i < 32 ==> (Bit(Address(host, mask).Net(), i) <==> i < p && Bit(host, i))
  {
    forall i | 0 <= i < 32 ensures Bit(Address(host, mask).Net(), i) <==> i < p && Bit(host, i) {
      OperatorBits(host, mask, i);
    }
  }
}
