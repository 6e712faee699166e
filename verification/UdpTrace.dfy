/** Where the table entries of UdpMux come from: soundness of the demultiplexing over whole runs. */
module UdpTrace {
  import opened Prelude
  import opened Stun
  import opened UdpModel

  // ---- transactions ----

  /** The event sends a Request with this transaction id. */
  predicate Requests(e: Event, txid: Bytes) {
    e.Send? && StunParse(e.data) == Some(StunInfo(Request, txid))
  }

  predicate Responds(e: Event, txid: Bytes) {
    e.Recv? && var info := StunParse(e.data); info.Some? && IsResponse(info.value) && info.value.txid == txid
  }

  /** The event ends a registration of `txid` made at time `t`: consumed, replaced, expired or cleared. */
  predicate EndsTxn(e: Event, txid: Bytes, t: Time) {
    Responds(e, txid) || Requests(e, txid) || (e.Reap? && e.now - t > 40 * SECOND) || e.Shutdown?
  }

  /** Event `i` registered `txid`, and nothing before event `n` has ended that registration. */
  ghost predicate Registered(events: seq<Event>, i: nat, n: nat, txid: Bytes) {
    && i < n <= |events|
    && Requests(events[i], txid)
    && forall j :: i < j < n ==> !EndsTxn(events[j], txid, events[i].now)
  }

  lemma StepTxn(m: Mux, e: Event, txid: Bytes, entry: TxnEntry)
    ensures (txid in Step(m, e).stunTxn && Step(m, e).stunTxn[txid] == entry) <==>
            || (Requests(e, txid) && entry == TxnEntry(e.src, e.now))
            || (txid in m.stunTxn && m.stunTxn[txid] == entry && !EndsTxn(e, txid, entry.createdAt))
  {
    hide StunParse, Inverse, FreshOwners;
  }

  /**
   * A transaction is in the table, for a source and a time, exactly when that source sent a Request with
   * its id at that time and no response, later Request, expiry or shutdown has ended the registration.
   */
  lemma {:induction false} TxnExactly(run: seq<Mux>, events: seq<Event>, n: nat, txid: Bytes, entry: TxnEntry)
    requires IsRun(run, events) && n < |run|
    ensures (txid in run[n].stunTxn && run[n].stunTxn[txid] == entry) <==>
            exists i: nat :: Registered(events, i, n, txid) && entry == TxnEntry(events[i].src, events[i].now)
  {
    hide Step, EndsTxn, StunParse;
    if n > 0 {
      var e := events[n - 1];
      TxnExactly(run, events, n - 1, txid, entry);
      StepTxn(run[n - 1], e, txid, entry);
      if Requests(e, txid) && entry == TxnEntry(e.src, e.now) {
        assert Registered(events, n - 1, n, txid);
      } else if txid in run[n - 1].stunTxn && run[n - 1].stunTxn[txid] == entry && !EndsTxn(e, txid, entry.createdAt) {
        var i: nat :| Registered(events, i, n - 1, txid) && entry == TxnEntry(events[i].src, events[i].now);
        assert Registered(events, i, n, txid);
      }
      forall i: nat | Registered(events, i, n, txid) && entry == TxnEntry(events[i].src, events[i].now)
        ensures txid in run[n].stunTxn && run[n].stunTxn[txid] == entry
      {
        if i < n - 1 { assert Registered(events, i, n - 1, txid); }
      }
    }
  }

  /** A response is delivered to a source exactly when that source's registration of its id is open. */
  lemma ResponseDelivery(run: seq<Mux>, events: seq<Event>, n: nat, txid: Bytes, s: Source)
    requires IsRun(run, events) && n < |events| && Responds(events[n], txid)
    ensures Receiver(run[n], events[n].key, StunParse(events[n].data)) == Some(s) <==>
            exists i: nat :: Registered(events, i, n, txid) && events[i].src == s
  {
    if txid in run[n].stunTxn {
      TxnExactly(run, events, n, txid, run[n].stunTxn[txid]);
    }
    forall i: nat | Registered(events, i, n, txid) && events[i].src == s
      ensures txid in run[n].stunTxn && run[n].stunTxn[txid].innerSrc == s
    {
      TxnExactly(run, events, n, txid, TxnEntry(events[i].src, events[i].now));
    }
  }

  /**
   * One registration serves at most one response: a second response with the same id is delivered to a source
   * only if that source has sent a Request with the id since the first.
   */
  lemma RegistrationConsumedOnce(run: seq<Mux>, events: seq<Event>, n: nat, n': nat, txid: Bytes, s: Source)
    requires IsRun(run, events) && n < n' < |events| && Responds(events[n], txid) && Responds(events[n'], txid)
    requires Receiver(run[n'], events[n'].key, StunParse(events[n'].data)) == Some(s)
    ensures exists i :: n < i < n' && Requests(events[i], txid) && events[i].src == s
  {
    hide StunParse, Step, Receiver;
    ResponseDelivery(run, events, n', txid, s);
    var i: nat :| Registered(events, i, n', txid) && events[i].src == s;
  }

  // ---- endpoints ----

  /** The event is a datagram other than STUN from `s` to endpoint `k`. */
  predicate SendsData(e: Event, k: nat, s: Source) { e.Send? && e.key == k && e.src == s && StunParse(e.data).None? }

  /** Traffic that keeps the claim of `s` on `k` alive. */
  predicate KeepsAlive(e: Event, k: nat, s: Source) {
    || (e.Send? && e.key == k && e.src == s)
    || (e.Recv? && e.key == k && var info := StunParse(e.data); !(info.Some? && IsResponse(info.value)))
  }

  /** The event drops the claim of `s` on an endpoint last active at `t`. */
  predicate Releases(e: Event, s: Source, t: Time) {
    (e.SourceGone? && e.src == s) || (e.Reap? && e.now - t > 30 * SECOND) || e.Shutdown?
  }

  /** The last event from `i` on and before `n` that keeps the claim of source `s` on `k` alive. */
  function LastAlive(events: seq<Event>, i: nat, n: nat, k: nat, s: Source): (a: nat)
    requires i < n <= |events| && SendsData(events[i], k, s)
    ensures i <= a < n && KeepsAlive(events[a], k, s)
    ensures events[a].Send? || events[a].Recv?
  {
    if n == i + 1 || KeepsAlive(events[n - 1], k, s) then n - 1 else LastAlive(events, i, n - 1, k, s)
  }

  /**
   * With event `i` source `s` sent data to `k` while no claim on `k` was open, and before event `n` nothing
   * released the claim so made: `s` did not go, no shutdown came, and no reap found it idle for more than 30 s.
   */
  ghost predicate ClaimOpen(events: seq<Event>, i: nat, n: nat, k: nat, s: Source): (isOpen: bool)
    ensures isOpen ==> i < n <= |events| && SendsData(events[i], k, s)
    decreases n
  {
    && i < n <= |events| && SendsData(events[i], k, s)
    && (forall h: nat, s' :: h < i ==> !ClaimOpen(events, h, i, k, s'))
    && forall j :: i < j < n ==> !Releases(events[j], s, events[LastAlive(events, i, j, k, s)].now)
  }

  lemma StepOwner(m: Mux, e: Event, k: nat, entry: OwnerEntry)
    requires IsInverse(m.endpointOwner, m.ownerEndpoints)
    ensures (k in Step(m, e).endpointOwner && Step(m, e).endpointOwner[k] == entry) <==>
            || (k !in m.endpointOwner && SendsData(e, k, entry.owner) && entry.lastActive == e.now)
            || (k in m.endpointOwner && m.endpointOwner[k].owner == entry.owner
                && KeepsAlive(e, k, entry.owner) && entry.lastActive == e.now)
            || (k in m.endpointOwner && m.endpointOwner[k] == entry
                && !KeepsAlive(e, k, entry.owner) && !Releases(e, entry.owner, entry.lastActive))
  {
    hide StunParse, Inverse, FreshTxns;
  }

  /** A claim stays open exactly if the next event does not release it. */
  lemma ClaimStep(events: seq<Event>, i: nat, n: nat, k: nat, s: Source)
    requires i < n < |events| && SendsData(events[i], k, s)
    ensures ClaimOpen(events, i, n + 1, k, s) <==>
            ClaimOpen(events, i, n, k, s) && !Releases(events[n], s, events[LastAlive(events, i, n, k, s)].now)
    ensures LastAlive(events, i, n + 1, k, s) ==
            if KeepsAlive(events[n], k, s) then n else LastAlive(events, i, n, k, s)
  {
    hide SendsData, KeepsAlive, Releases;
  }

  lemma NewClaim(events: seq<Event>, n: nat, k: nat, s: Source)
    requires n < |events| && SendsData(events[n], k, s)
    requires forall i: nat, s' :: i < n ==> !ClaimOpen(events, i, n, k, s')
    ensures ClaimOpen(events, n, n + 1, k, s) && LastAlive(events, n, n + 1, k, s) == n
  {
  }

  /**
   * An endpoint is owned by a source, last active at a time, exactly when the source has a claim on it that is
   * still open, and the last event that kept the claim alive was at that time.
   */
  lemma {:induction false} OwnerExactly(run: seq<Mux>, events: seq<Event>, n: nat, k: nat, entry: OwnerEntry)
    requires IsRun(run, events) && n < |run|
    ensures (k in run[n].endpointOwner && run[n].endpointOwner[k] == entry) <==>
            exists i: nat :: && ClaimOpen(events, i, n, k, entry.owner)
                             && entry.lastActive == events[LastAlive(events, i, n, k, entry.owner)].now
    decreases n, 1
  {
    hide Step, IsInverse, StunParse, LastAlive;
    if k in run[n].endpointOwner && run[n].endpointOwner[k] == entry {
      OwnedHasClaim(run, events, n, k, entry);
    }
    forall i: nat | ClaimOpen(events, i, n, k, entry.owner)
                    && entry.lastActive == events[LastAlive(events, i, n, k, entry.owner)].now
      ensures k in run[n].endpointOwner && run[n].endpointOwner[k] == entry
    {
      ClaimOwns(run, events, i, n, k, entry);
    }
  }

  lemma {:induction false} OwnedHasClaim(run: seq<Mux>, events: seq<Event>, n: nat, k: nat, entry: OwnerEntry)
    requires IsRun(run, events) && n < |run|
    requires k in run[n].endpointOwner && run[n].endpointOwner[k] == entry
    ensures exists i: nat :: && ClaimOpen(events, i, n, k, entry.owner)
                             && entry.lastActive == events[LastAlive(events, i, n, k, entry.owner)].now
    decreases n, 0
  {
    hide Step, IsInverse, StunParse, LastAlive, SendsData, ClaimOpen;
    assert n > 0;
    var m, s := n - 1, entry.owner;
    ReverseIndexExact(run, events, m);
    StepOwner(run[m], events[m], k, entry);
    if k !in run[m].endpointOwner {
      FreeHasNoClaim(run, events, m, k);
      NewClaim(events, m, k, s);
    } else {
      var was := run[m].endpointOwner[k];
      OwnerExactly(run, events, m, k, was);
      var i: nat :| ClaimOpen(events, i, m, k, s) && was.lastActive == events[LastAlive(events, i, m, k, s)].now;
      ClaimStep(events, i, m, k, s);
    }
  }

  lemma {:induction false} FreeHasNoClaim(run: seq<Mux>, events: seq<Event>, n: nat, k: nat)
    requires IsRun(run, events) && n < |run| && k !in run[n].endpointOwner
    ensures forall i: nat, s :: i < n ==> !ClaimOpen(events, i, n, k, s)
    decreases n, 2
  {
    hide LastAlive, SendsData, Releases, KeepsAlive, Step;
    forall i: nat, s | i < n ensures !ClaimOpen(events, i, n, k, s) {
      if ClaimOpen(events, i, n, k, s) {
        OwnerExactly(run, events, n, k, OwnerEntry(s, events[LastAlive(events, i, n, k, s)].now));
      }
    }
  }

  lemma {:induction false} ClaimOwns(run: seq<Mux>, events: seq<Event>, i: nat, n: nat, k: nat, entry: OwnerEntry)
    requires IsRun(run, events) && ClaimOpen(events, i, n, k, entry.owner)
    requires entry.lastActive == events[LastAlive(events, i, n, k, entry.owner)].now
    ensures k in run[n].endpointOwner && run[n].endpointOwner[k] == entry
    decreases n, 0
  {
    hide Step, IsInverse, StunParse;
    var m := n - 1;
    ReverseIndexExact(run, events, m);
    StepOwner(run[m], events[m], k, entry);
    if i == m {
      if k in run[m].endpointOwner { OwnerExactly(run, events, m, k, run[m].endpointOwner[k]); }
    } else {
      ClaimStep(events, i, m, k, entry.owner);
      OwnerExactly(run, events, m, k, OwnerEntry(entry.owner, events[LastAlive(events, i, m, k, entry.owner)].now));
    }
  }

  lemma ClaimHolds(run: seq<Mux>, events: seq<Event>, i: nat, n: nat, k: nat, s: Source)
    requires IsRun(run, events) && n < |run| && ClaimOpen(events, i, n, k, s)
    ensures k in run[n].endpointOwner && run[n].endpointOwner[k].owner == s
  {
    hide StunParse, Releases, Step;
    ClaimOwns(run, events, i, n, k, OwnerEntry(s, events[LastAlive(events, i, n, k, s)].now));
  }

  /** A datagram other than a STUN response is delivered to a source exactly when that source's claim is open. */
  lemma {:induction false} DataDelivery(run: seq<Mux>, events: seq<Event>, n: nat, s: Source)
    requires IsRun(run, events) && n < |events| && events[n].Recv?
    requires var info := StunParse(events[n].data); !(info.Some? && IsResponse(info.value))
    ensures Receiver(run[n], events[n].key, StunParse(events[n].data)) == Some(s) <==>
            exists i: nat :: ClaimOpen(events, i, n, events[n].key, s)
  {
    hide StunParse, Releases, LastAlive, Step;
    var k := events[n].key;
    if k in run[n].endpointOwner { OwnerExactly(run, events, n, k, run[n].endpointOwner[k]); }
    forall i: nat | ClaimOpen(events, i, n, k, s)
      ensures k in run[n].endpointOwner && run[n].endpointOwner[k].owner == s
    {
      ClaimHolds(run, events, i, n, k, s);
    }
  }

  /** First come, first served: while a claim is open every data send of another source to the endpoint is dropped. */
  lemma {:induction false} OthersRefused(run: seq<Mux>, events: seq<Event>, i: nat, n: nat, k: nat, s: Source)
    requires IsRun(run, events) && ClaimOpen(events, i, n, k, s)
    ensures forall j, s' :: i < j < n && s' != s && SendsData(events[j], k, s') ==>
              !Accepts(run[j], s', k, StunParse(events[j].data))
  {
    hide StunParse, Releases, LastAlive, Step;
    forall j | i < j < n ensures k in run[j].endpointOwner && run[j].endpointOwner[k].owner == s {
      ClaimHolds(run, events, i, j, k, s);
    }
  }

  /**
   * A datagram of an inner source is dropped exactly if it is not STUN and another source's claim on its endpoint
   * is open; every other is passed on.
   */
  lemma {:induction false} DroppedExactly(run: seq<Mux>, events: seq<Event>, n: nat)
    requires IsRun(run, events) && n < |events| && events[n].Send?
    ensures !Accepts(run[n], events[n].src, events[n].key, StunParse(events[n].data)) <==>
            && StunParse(events[n].data).None?
            && exists i: nat, s :: s != events[n].src && ClaimOpen(events, i, n, events[n].key, s)
  {
    hide StunParse, Releases, LastAlive, Step;
    var k := events[n].key;
    if k in run[n].endpointOwner { OwnerExactly(run, events, n, k, run[n].endpointOwner[k]); }
    forall i: nat, s | ClaimOpen(events, i, n, k, s)
      ensures k in run[n].endpointOwner && run[n].endpointOwner[k].owner == s
    {
      ClaimHolds(run, events, i, n, k, s);
    }
  }

  // ---- the counters ----

  /** Data refused because another source owns its endpoint. */
  predicate Collides(m: Mux, e: Event) { e.Send? && !Accepts(m, e.src, e.key, StunParse(e.data)) }

  /** A response, or any other datagram, that nobody is to receive. */
  predicate Misses(m: Mux, e: Event, response: bool) {
    && e.Recv? && Receiver(m, e.key, StunParse(e.data)).None?
    && var info := StunParse(e.data); response == (info.Some? && IsResponse(info.value))
  }

  function One(counts: bool): nat { if counts then 1 else 0 }

  function Collisions(run: seq<Mux>, events: seq<Event>, n: nat): nat
    requires n <= |events| < |run|
  {
    if n == 0 then 0 else Collisions(run, events, n - 1) + One(Collides(run[n - 1], events[n - 1]))
  }

  function Missed(run: seq<Mux>, events: seq<Event>, n: nat, response: bool): nat
    requires n <= |events| < |run|
  {
    if n == 0 then 0 else Missed(run, events, n - 1, response) + One(Misses(run[n - 1], events[n - 1], response))
  }

  lemma StepDrops(m: Mux, e: Event)
    ensures var d, d' := m.drops, Step(m, e).drops;
            && d'.collision == d.collision + One(Collides(m, e))
            && d'.txidMiss == d.txidMiss + One(Misses(m, e, true))
            && d'.endpointMiss == d.endpointMiss + One(Misses(m, e, false))
  {
    hide StunParse, Inverse, FreshOwners, FreshTxns;
  }

  /** In every run the counters say how many datagrams were refused, and how many came in for nobody. */
  lemma {:induction false} DropsCounted(run: seq<Mux>, events: seq<Event>, n: nat)
    requires IsRun(run, events) && n < |run|
    ensures run[n].drops.collision == Collisions(run, events, n)
    ensures run[n].drops.txidMiss == Missed(run, events, n, true)
    ensures run[n].drops.endpointMiss == Missed(run, events, n, false)
  {
    hide Step, Collides, Misses;
    if n > 0 {
      DropsCounted(run, events, n - 1);
      StepDrops(run[n - 1], events[n - 1]);
    }
  }
}
