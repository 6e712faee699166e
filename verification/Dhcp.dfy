/** Address assignment on the server, handleExptTunMsg of server.cc. */
module Dhcp {
  import opened Prelude
  import opened Net
  import opened Subnets

  type VMac = Bytes

  /** What ends the do-while loop of the search: its condition joins the two tests with `and`. */
  predicate Stops(a: Address, taken: set<IP4>) { a.IsValid() || a.host !in taken }

  /** The step of the walk, from step k on, at which the search stops; None if it comes back to the cursor first. */
  function FirstStop(a: Address, taken: set<IP4>, k: nat, size: nat): Option<nat>
    decreases size - k
  {
    if k >= size then None else if Stops(Nth(a, k), taken) then Some(k) else FirstStop(a, taken, k + 1, size)
  }

  function Search(a: Address, taken: set<IP4>, p: nat): Option<Address>
    requires p <= 32
  {
    match FirstStop(a, taken, 1, Size(p))
    case None => None
    case Some(k) => Some(Nth(a, k))
  }

  /** The walk comes back to the cursor after one round and not before. */
  lemma {:induction false} RoundEnds(a: Address, p: nat, k: nat)
    requires p <= 32 && IsMask(a.mask, p) && 1 <= k <= Size(p)
    ensures Nth(a, k).mask == a.mask
    ensures Nth(a, k).host == a.host <==> k == Size(p)
  {
    hide Pow2, Nth, Value, IsMask, Size, Address.Net;
    NthValue(a, p, k);
    assert Nth(a, 0) == a by { NthZero(a); }
    OneCycle(a, p, 0, k);
    ModUnique(k, Size(p), if k == Size(p) then 1 else 0, if k == Size(p) then 0 else k);
    assert Nth(a, k) == Address(Nth(a, k).host, a.mask);
  }

  lemma NthZero(a: Address)
    ensures Nth(a, 0) == a
  {
  }

  lemma {:induction false} SearchMoves(a: Address, taken: set<IP4>, p: nat)
    requires p <= 32 && IsMask(a.mask, p)
    ensures Search(a, taken, p).Some? ==> Search(a, taken, p).value != a
  {
    hide Nth, Stops, Pow2, IsMask;
    StopInRange(a, taken, 1, Size(p));
    match FirstStop(a, taken, 1, Size(p))
    case Some(k) => RoundEnds(a, p, k);
    case None =>
  }

  lemma {:induction false} StopInRange(a: Address, taken: set<IP4>, k: nat, size: nat)
    ensures var i := FirstStop(a, taken, k, size); i.Some? ==> k <= i.value < size
    decreases size - k
  {
    hide Stops, Nth;
    if k < size && !Stops(Nth(a, k), taken) { StopInRange(a, taken, k + 1, size); }
  }

  /** May a client of this vmac have the address it asks for? */
  predicate Direct(dhcp: Address, ctx: map<IP4, VMac>, vmac: VMac, expt: Address) {
    dhcp.Net() == expt.Net() && (expt.host !in ctx || ctx[expt.host] == vmac)
  }

  class WebSocketServer {
    var dhcp: Address
    // The clients logged in, by address; of a client's context only the vmac matters here.
    var ipCtxMap: map<IP4, VMac>
    ghost const prefix: nat

    ghost predicate Valid()
      reads this
    {
      prefix <= 32 && IsMask(dhcp.mask, prefix)
    }

    /** setDHCP, the text of the CIDR being parsed already. */
    constructor (host: IP4, prefix: int)
      ensures Valid() && ipCtxMap == map[] && dhcp.host == host && IsMask(dhcp.mask, prefix)
    {
      var raw := new Byte[4];
      var _ := FromPrefix(raw, prefix);
      dhcp := Address(host, raw[..]);
      ipCtxMap := map[];
      this.prefix := if prefix < 0 then 0 else if prefix > 32 then 32 else prefix;
    }

    /** The search loop. It ends within one round of the subnet. */
    method FindAddress() returns (found: Option<Address>)
      requires Valid()
      modifies `dhcp
      ensures Valid()
      ensures found == Search(old(dhcp), ipCtxMap.Keys, prefix)
      ensures dhcp == if found.Some? then found.value else old(dhcp)
    {
      hide Address.Next, Address.IsValid, Address.Net, Pow2, Bit;
      var expt := dhcp;
      ghost var k: nat, size := 0, Size(prefix);
      var searching := true;
      while searching
        modifies {}
        invariant expt == Nth(dhcp, k) && k < size
        invariant expt.mask == dhcp.mask
        invariant if searching
                  then FirstStop(dhcp, ipCtxMap.Keys, 1, size) == FirstStop(dhcp, ipCtxMap.Keys, k + 1, size)
                  else FirstStop(dhcp, ipCtxMap.Keys, 1, size) == Some(k)
        decreases size - k, searching
      {
        expt := expt.Next();
        k := k + 1;
        RoundEnds(dhcp, prefix, k);
        if expt.host == dhcp.host {
          return None;
        }
        searching := !expt.IsValid() && expt.host in ipCtxMap;
      }
      dhcp := expt;
      return Some(expt);
    }

    /** The reply to a request; None closes the connection. `expt` is None if its CIDR does not parse. */
    method HandleExptTunMsg(vmac: VMac, expt: Option<Address>) returns (reply: Option<Address>)
      requires Valid()
      modifies `dhcp
      ensures Valid()
      ensures old(dhcp) == Address(ZERO, ZERO) || expt.None? ==> reply == None && dhcp == old(dhcp)
      ensures old(dhcp) != Address(ZERO, ZERO) && expt.Some? ==>
                if Direct(old(dhcp), ipCtxMap, vmac, expt.value) then reply == expt && dhcp == old(dhcp)
                else && reply == Search(old(dhcp), ipCtxMap.Keys, prefix)
                     && dhcp == if reply.Some? then reply.value else old(dhcp)
      // An address granted without moving the cursor is free, or the client's own.
      ensures reply.Some? && dhcp == old(dhcp) ==>
                reply == expt && (reply.value.host !in ipCtxMap || ipCtxMap[reply.value.host] == vmac)
      // Conversely an address of the DHCP network that is free, or the client's own, is granted as asked for.
      ensures old(dhcp) != Address(ZERO, ZERO) && expt.Some?
              && And(expt.value.host, expt.value.mask) == And(old(dhcp).host, old(dhcp).mask)
              && (expt.value.host !in ipCtxMap || ipCtxMap[expt.value.host] == vmac) ==>
                reply == expt && dhcp == old(dhcp)
    {
      hide Search, And, IsMask;
      if dhcp.Empty() || expt.None? { return None; }
      var direct := && dhcp.Net() == expt.value.Net()
                    && (expt.value.host !in ipCtxMap || ipCtxMap[expt.value.host] == vmac);
      if direct { return expt; }
      SearchMoves(dhcp, ipCtxMap.Keys, prefix);
      reply := FindAddress();
    }
  }
}
