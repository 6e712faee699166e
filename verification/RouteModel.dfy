/** The routing table of one node (manager.cc, updateRtTable) and what the node advertises about it. */
module RouteModel {
  import opened Prelude
  import opened PeerModel

  type Addr = U32

  datatype Route = Route(next: Addr, rtt: int)

  type Table = map<Addr, Route>

  predicate IsDelete(rtt: int) { rtt < 0 || rtt > 1000 }

  /** A route replaces the old one if there is none, if it comes from the same next hop, or if it is shorter. */
  predicate Replaces(t: Table, dst: Addr, next: Addr, rtt: int) {
    dst !in t || t[dst].next == next || t[dst].rtt > rtt
  }

  function Without(t: Table, next: Addr): Table { map d | d in t && t[d].next != next :: t[d] }

  function Through(t: Table, next: Addr): set<Addr> { set d | d in t && t[d].next == next }

  function AfterUpdateRt(t: Table, dst: Addr, next: Addr, rtt: int): Table {
    if IsDelete(rtt) then
      if dst == next then Without(t, next)
      else if dst in t && t[dst].next == next then t - {dst}
      else t
    else if dst == next then
      if Replaces(t, dst, next, rtt) then t[dst := Route(next, rtt)] else t
    else
      if next in t && Replaces(t, dst, next, t[next].rtt + rtt) then t[dst := Route(next, t[next].rtt + rtt)] else t
  }

  /** What sendRtMessage is called with: destinations and their rtt, RTT_LIMIT for a withdrawal. */
  function Adverts(t: Table, dst: Addr, next: Addr, rtt: int): map<Addr, int> {
    if IsDelete(rtt) then
      if dst == next then map d | d in Through(t, next) :: RTT_LIMIT
      else if dst in t && t[dst].next == next then map[dst := RTT_LIMIT]
      else map[]
    else if dst == next then
      if Replaces(t, dst, next, rtt) then map[dst := rtt] else map[]
    else
      if next in t && Replaces(t, dst, next, t[next].rtt + rtt) then map[dst := t[next].rtt + rtt] else map[]
  }

  /** What goes into the message: a relay adds its own cost, except to a withdrawal. */
  function Advertised(rtt: int, cost: nat): int { if rtt != RTT_LIMIT then rtt + cost else rtt }

  /** The table changes exactly where the node advertises, and then says what it advertises. */
  lemma AdvertsAreTheChanges(t: Table, dst: Addr, next: Addr, rtt: int, d: Addr)
    ensures var t', ads := AfterUpdateRt(t, dst, next, rtt), Adverts(t, dst, next, rtt);
            && (d !in ads ==> (d in t <==> d in t') && (d in t ==> t'[d] == t[d]))
            && (d in ads ==> if d in t' then t'[d].rtt == ads[d] else d in t && ads[d] == RTT_LIMIT)
  {}

  /** An update makes a destination's distance grow only on news from the next hop it already used. */
  lemma OnlyTheNextHopWorsens(t: Table, dst: Addr, next: Addr, rtt: int, d: Addr)
    requires d in t
    ensures var t' := AfterUpdateRt(t, dst, next, rtt);
            (d !in t' || t'[d].rtt > t[d].rtt) ==> t[d].next == next
  {}

  // ---- which offers and withdrawals are taken ----

  /** A distance of 0 to 1000 to `dst` is on offer: measured directly, or reported by a next hop there is a route to. */
  predicate IsOffer(t: Table, dst: Addr, next: Addr, rtt: int) { 0 <= rtt <= 1000 && (dst == next || next in t) }

  function Offer(t: Table, dst: Addr, next: Addr, rtt: int): int
    requires IsOffer(t, dst, next, rtt)
  {
    if dst == next then rtt else t[next].rtt + rtt
  }

  /** The route in use has another next hop and is no longer than the offer. */
  predicate Declined(t: Table, dst: Addr, next: Addr, offer: int) {
    dst in t && t[dst].next != next && t[dst].rtt <= offer
  }

  /**
   * An offer is declined only for another route that is no longer; otherwise it becomes the route, and nothing
   * else changes. So afterwards the destination is no farther than was offered.
   */
  lemma OffersTaken(t: Table, dst: Addr, next: Addr, rtt: int)
    requires IsOffer(t, dst, next, rtt)
    ensures var t', offer := AfterUpdateRt(t, dst, next, rtt), Offer(t, dst, next, rtt);
            && t' == (if Declined(t, dst, next, offer) then t else t[dst := Route(next, offer)])
            && dst in t' && t'[dst].rtt <= offer
  {}

  /** A distance below 0 or over 1000 withdraws: the next hop's own removes all routes through it, any other its own. */
  lemma WithdrawalsTaken(t: Table, dst: Addr, next: Addr, rtt: int, d: Addr)
    requires rtt < 0 || rtt > 1000
    ensures var t' := AfterUpdateRt(t, dst, next, rtt);
            && (d in t' <==> d in t && !(t[d].next == next && (dst == next || dst == d)))
            && (d in t' ==> t'[d] == t[d])
  {}

  /** A report by a next hop there is no route to changes nothing. */
  lemma StrangersIgnored(t: Table, dst: Addr, next: Addr, rtt: int)
    requires 0 <= rtt <= 1000 && dst != next && next !in t
    ensures AfterUpdateRt(t, dst, next, rtt) == t && Adverts(t, dst, next, rtt) == map[]
  {}

  /** A destination is advertised exactly if its route was removed, or an offer of it was taken. */
  lemma AdvertisedExactly(t: Table, dst: Addr, next: Addr, rtt: int, d: Addr)
    ensures d in Adverts(t, dst, next, rtt) <==>
            || (d in t && d !in AfterUpdateRt(t, dst, next, rtt))
            || (d == dst && IsOffer(t, dst, next, rtt) && !Declined(t, dst, next, Offer(t, dst, next, rtt)))
  {}
}
