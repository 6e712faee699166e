/** UdpMux: the table code of udpmux.cc, with its erase-while-iterating loops, proved to do what UdpModel says. */
module UdpMuxes {
  import opened Prelude
  import opened Stun
  import opened UdpModel
  import opened UdpTrace

  class UdpMux {
    var endpointOwner: Owners
    var stunTxn: map<Bytes, TxnEntry>
    var ownerEndpoints: Index
    var drops: Drops

    // The run of the tables so far: the calls made, and the tables in between.
    ghost var events: seq<Event>
    ghost var run: seq<Mux>

    ghost function Abs(): Mux
      reads this
    {
      Mux(endpointOwner, stunTxn, ownerEndpoints, drops)
    }

    ghost predicate Indexed()
      reads this
    {
      IsInverse(endpointOwner, ownerEndpoints)
    }

    ghost predicate Valid()
      reads this
    {
      Indexed() && IsRun(run, events) && run[|events|] == Abs()
    }

    constructor ()
      ensures Valid() && Abs() == Empty() && events == []
    {
      endpointOwner, stunTxn, ownerEndpoints, drops := map[], map[], map[], Drops(0, 0, 0);
      events, run := [], [Empty()];
    }

    /** Appends the call just made to the run. */
    ghost method Note(e: Event)
      requires Indexed() && IsRun(run, events) && Abs() == Step(run[|events|], e)
      modifies `events, `run
      ensures Valid() && events == old(events) + [e]
    {
      hide Step, IsInverse;
      RunExtends(run, events, e);
      events, run := events + [e], run + [Abs()];
    }

    method Shutdown()
      requires Valid()
      modifies this
      ensures Valid() && events == old(events) + [Event.Shutdown]
      ensures Abs() == AfterShutdown(old(Abs()))
    {
      endpointOwner := map[];
      stunTxn := map[];
      ownerEndpoints := map[];
      Note(Event.Shutdown);
    }

    /** `sent`: the datagram is posted to the reactor for the global fd. */
    method SendFromSource(innerSrc: Source, ip: U32, port: U16, data: Bytes, now: Time) returns (sent: bool)
      requires Valid()
      modifies this
      ensures Valid() && events == old(events) + [Send(innerSrc, EndpointKey(ip, port), data, now)]
      ensures Abs() == AfterSend(old(Abs()), innerSrc, EndpointKey(ip, port), StunParse(data), now)
      ensures sent == Accepts(old(Abs()), innerSrc, EndpointKey(ip, port), StunParse(data))
    {
      sent := RegisterSend(innerSrc, EndpointKey(ip, port), StunParse(data), now);
      Note(Send(innerSrc, EndpointKey(ip, port), data, now));
    }

    /** The table part of sendFromSource. */
    method RegisterSend(innerSrc: Source, k: nat, info: Option<StunInfo>, now: Time) returns (sent: bool)
      requires Indexed()
      modifies `endpointOwner, `stunTxn, `ownerEndpoints, `drops
      ensures Indexed() && Abs() == AfterSend(old(Abs()), innerSrc, k, info, now)
      ensures sent == Accepts(old(Abs()), innerSrc, k, info)
    {
      if info.Some? {
        if info.value.klass == Request {
          stunTxn := stunTxn[info.value.txid := TxnEntry(innerSrc, now)];
        }
        if k in endpointOwner && endpointOwner[k].owner == innerSrc {
          endpointOwner := endpointOwner[k := endpointOwner[k].(lastActive := now)];
        }
      } else if k !in endpointOwner {
        Claim(innerSrc, k, now);
      } else if endpointOwner[k].owner != innerSrc {
        drops := drops.(collision := drops.collision + 1);
        return false;
      } else {
        endpointOwner := endpointOwner[k := endpointOwner[k].(lastActive := now)];
      }
      sent := true;
    }

    method Claim(innerSrc: Source, k: nat, now: Time)
      requires Indexed() && k !in endpointOwner
      modifies `endpointOwner, `ownerEndpoints
      ensures Indexed() && endpointOwner == old(endpointOwner)[k := OwnerEntry(innerSrc, now)]
      ensures var mine := if innerSrc in old(ownerEndpoints) then old(ownerEndpoints[innerSrc]) else {};
              ownerEndpoints == old(ownerEndpoints)[innerSrc := mine + {k}]
    {
      hide IsInverse;
      ClaimInverse(endpointOwner, ownerEndpoints, innerSrc, k, now);
      endpointOwner := endpointOwner[k := OwnerEntry(innerSrc, now)];
      if innerSrc !in ownerEndpoints {
        ownerEndpoints := ownerEndpoints[innerSrc := {}];
      }
      ownerEndpoints := ownerEndpoints[innerSrc := ownerEndpoints[innerSrc] + {k}];
      ghost var mine := if innerSrc in old(ownerEndpoints) then old(ownerEndpoints[innerSrc]) else {};
      assert ownerEndpoints == old(ownerEndpoints)[innerSrc := mine + {k}];
    }

    /** Removes the endpoints that the reverse index lists for the source, then its index entry. */
    method OnSourceGone(innerSrc: Source)
      requires Valid()
      modifies this
      ensures Valid() && events == old(events) + [SourceGone(innerSrc)]
      ensures Abs() == AfterSourceGone(old(Abs()), innerSrc)
    {
      EraseSource(innerSrc);
      Note(SourceGone(innerSrc));
    }

    method EraseSource(innerSrc: Source)
      requires Indexed()
      modifies `endpointOwner, `ownerEndpoints
      ensures Indexed() && Abs() == AfterSourceGone(old(Abs()), innerSrc)
    {
      if innerSrc !in ownerEndpoints {
        assert forall k :: k in endpointOwner ==> endpointOwner[k].owner != innerSrc;
        assert AfterSourceGone(Abs(), innerSrc).endpointOwner == endpointOwner;
        return;
      }
      var todo := ownerEndpoints[innerSrc];
      ghost var owners := endpointOwner;
      while todo != {}
        modifies `endpointOwner
        invariant todo <= ownerEndpoints[innerSrc]
        invariant endpointOwner.Keys == owners.Keys - (ownerEndpoints[innerSrc] - todo)
        invariant forall k :: k in endpointOwner ==> endpointOwner[k] == owners[k]
        decreases todo
      {
        var k :| k in todo;
        if k in endpointOwner && endpointOwner[k].owner == innerSrc {
          endpointOwner := endpointOwner - {k};
        }
        todo := todo - {k};
      }
      assert endpointOwner == AfterSourceGone(old(Abs()), innerSrc).endpointOwner;
      ownerEndpoints := ownerEndpoints - {innerSrc};
    }

    /** The first loop of reap: expired endpoints leave both tables, and the index stays exact throughout. */
    method ReapEndpoints(now: Time)
      requires Indexed()
      modifies `endpointOwner, `ownerEndpoints
      ensures Indexed() && endpointOwner == FreshOwners(old(endpointOwner), now)
    {
      var todo := endpointOwner.Keys;
      ghost var owners := endpointOwner;
      while todo != {}
        modifies `endpointOwner, `ownerEndpoints
        invariant Indexed() && todo <= endpointOwner.Keys
        invariant endpointOwner.Keys <= owners.Keys
        invariant forall k :: k in endpointOwner ==> endpointOwner[k] == owners[k]
        invariant forall k :: k in owners && k !in todo ==>
                    (k in endpointOwner <==> now - owners[k].lastActive <= ENDPOINT_IDLE)
        decreases todo
      {
        var k :| k in todo;
        if now - endpointOwner[k].lastActive > ENDPOINT_IDLE {
          EraseEndpoint(k);
        }
        todo := todo - {k};
      }
    }

    method EraseEndpoint(k: nat)
      requires Indexed() && k in endpointOwner
      modifies `endpointOwner, `ownerEndpoints
      ensures Indexed() && endpointOwner == old(endpointOwner) - {k}
    {
      var owner := endpointOwner[k].owner;
      if owner in ownerEndpoints {
        ownerEndpoints := ownerEndpoints[owner := ownerEndpoints[owner] - {k}];
        if ownerEndpoints[owner] == {} {
          ownerEndpoints := ownerEndpoints - {owner};
        }
      }
      endpointOwner := endpointOwner - {k};
    }

    method ReapTxns(now: Time)
      modifies `stunTxn
      ensures stunTxn == FreshTxns(old(stunTxn), now)
    {
      var todo := stunTxn.Keys;
      ghost var txns := stunTxn;
      while todo != {}
        modifies `stunTxn
        invariant todo <= stunTxn.Keys <= txns.Keys
        invariant forall t :: t in stunTxn ==> stunTxn[t] == txns[t]
        invariant forall t :: t in txns && t !in todo ==> (t in stunTxn <==> now - txns[t].createdAt <= TXN_IDLE)
        decreases todo
      {
        var t :| t in todo;
        if now - stunTxn[t].createdAt > TXN_IDLE {
          stunTxn := stunTxn - {t};
        }
        todo := todo - {t};
      }
    }

    method Reap(now: Time)
      requires Valid()
      modifies this
      ensures Valid() && events == old(events) + [Event.Reap(now)]
      ensures Abs() == AfterReap(old(Abs()), now)
    {
      ReapEndpoints(now);
      ReapTxns(now);
      InverseIsInverse(endpointOwner);
      InverseUnique(endpointOwner, ownerEndpoints, Inverse(endpointOwner));
      Note(Event.Reap(now));
    }

    /** `receiver`: the source that the datagram is injected for. */
    method Demux(ip: U32, port: U16, data: Bytes, now: Time) returns (receiver: Option<Source>)
      requires Valid()
      modifies this
      ensures Valid() && events == old(events) + [Recv(EndpointKey(ip, port), data, now)]
      ensures Abs() == AfterDemux(old(Abs()), EndpointKey(ip, port), StunParse(data), now)
      ensures receiver == Receiver(old(Abs()), EndpointKey(ip, port), StunParse(data))
    {
      receiver := Attribute(EndpointKey(ip, port), StunParse(data), now);
      Note(Recv(EndpointKey(ip, port), data, now));
    }

    /** The table part of demux. */
    method Attribute(k: nat, info: Option<StunInfo>, now: Time) returns (receiver: Option<Source>)
      requires Indexed()
      modifies `endpointOwner, `stunTxn, `drops
      ensures Indexed() && Abs() == AfterDemux(old(Abs()), k, info, now)
      ensures receiver == Receiver(old(Abs()), k, info)
    {
      if info.Some? && (info.value.klass == SuccessResp || info.value.klass == ErrorResp) {
        var txid := info.value.txid;
        if txid in stunTxn {
          receiver := Some(stunTxn[txid].innerSrc);
          stunTxn := stunTxn - {txid};
          return;
        }
        drops := drops.(txidMiss := drops.txidMiss + 1);
        return None;
      }
      if k in endpointOwner {
        endpointOwner := endpointOwner[k := endpointOwner[k].(lastActive := now)];
        return Some(endpointOwner[k].owner);
      }
      drops := drops.(endpointMiss := drops.endpointMiss + 1);
      return None;
    }

    /** At any time between calls an owner in the table has an open claim among the calls made. */
    lemma OwnerHasClaim(k: nat) returns (i: nat)
      requires Valid() && k in endpointOwner
      ensures ClaimOpen(events, i, |events|, k, endpointOwner[k].owner)
    {
      hide LastAlive;
      assert run[|events|].endpointOwner == endpointOwner;
      OwnerExactly(run, events, |events|, k, endpointOwner[k]);
      i :| ClaimOpen(events, i, |events|, k, endpointOwner[k].owner);
    }
  }
}
