/**
 * The tables of UdpMux: who owns a remote endpoint, which source waits for which STUN transaction, and
 * the reverse index from owners to endpoints; and what one call does to them. Times are readings of one
 * steady clock in nanoseconds.
 */
module UdpModel {
  import opened Prelude
  import opened Stun

  type Source = Bytes   // SessionUdp::key, the address and port of an inner source
  const ENDPOINT_IDLE: Time := 30 * SECOND
  const TXN_IDLE: Time := 40 * SECOND

  function EndpointKey(ip: U32, port: U16): nat { ip * 0x1_0000 + port }

  /** Distinct endpoints have distinct keys. */
  lemma EndpointKeyInjective(ip: U32, port: U16, ip': U32, port': U16)
    ensures EndpointKey(ip, port) == EndpointKey(ip', port') <==> ip == ip' && port == port'
  {
    assert EndpointKey(ip, port) / 0x1_0000 == ip && EndpointKey(ip, port) % 0x1_0000 == port;
    assert EndpointKey(ip', port') / 0x1_0000 == ip' && EndpointKey(ip', port') % 0x1_0000 == port';
  }

  datatype OwnerEntry = OwnerEntry(owner: Source, lastActive: Time)
  datatype TxnEntry = TxnEntry(innerSrc: Source, createdAt: Time)

  type Owners = map<nat, OwnerEntry>
  type Index = map<Source, set<nat>>

  datatype Drops = Drops(collision: nat, txidMiss: nat, endpointMiss: nat)

  datatype Mux = Mux(endpointOwner: Owners, stunTxn: map<Bytes, TxnEntry>, ownerEndpoints: Index, drops: Drops)

  function Empty(): Mux { Mux(map[], map[], map[], Drops(0, 0, 0)) }

  // ---- the reverse index ----

  /** `index` lists, for every source that owns something and no other, exactly what it owns. */
  ghost predicate IsInverse(owners: Owners, index: Index) {
    && (forall k :: k in owners ==> owners[k].owner in index && k in index[owners[k].owner])
    && (forall s :: s in index ==> index[s] != {})
    && (forall s, k :: s in index && k in index[s] ==> k in owners && owners[k].owner == s)
  }

  function OwnerSet(owners: Owners): set<Source> { set k | k in owners :: owners[k].owner }

  function Owned(owners: Owners, s: Source): set<nat> { set k | k in owners && owners[k].owner == s }

  function Inverse(owners: Owners): Index { map s | s in OwnerSet(owners) :: Owned(owners, s) }

  lemma InverseIsInverse(owners: Owners)
    ensures IsInverse(owners, Inverse(owners))
  {
    forall s | s in Inverse(owners)
      ensures Inverse(owners)[s] != {}
    {
      var k :| k in owners && owners[k].owner == s;
      assert k in Inverse(owners)[s];
    }
  }

  lemma InverseUnique(owners: Owners, a: Index, b: Index)
    requires IsInverse(owners, a) && IsInverse(owners, b)
    ensures a == b
  {
    InverseSubset(owners, a, b);
    InverseSubset(owners, b, a);
    assert a.Keys == b.Keys;
  }

  lemma InverseSubset(owners: Owners, a: Index, b: Index)
    requires IsInverse(owners, a) && IsInverse(owners, b)
    ensures forall s :: s in a ==> s in b && a[s] == b[s]
  {
    forall s | s in a
      ensures s in b && a[s] == b[s]
    {
      var k :| k in a[s];
      assert k in owners && owners[k].owner == s;
      forall j | j in a[s] ensures j in b[s] { assert j in owners && owners[j].owner == s; }
      forall j | j in b[s] ensures j in a[s] { assert j in owners && owners[j].owner == s; }
    }
  }

  // ---- the calls; `info` is what StunParse says of the datagram ----

  function Touch(owners: Owners, k: nat, now: Time): Owners
    requires k in owners
  {
    owners[k := owners[k].(lastActive := now)]
  }

  predicate IsResponse(info: StunInfo) { info.klass == SuccessResp || info.klass == ErrorResp }

  function AfterSend(m: Mux, src: Source, k: nat, info: Option<StunInfo>, now: Time): Mux {
    match info
    case Some(msg) =>
      m.(stunTxn := if msg.klass == Request then m.stunTxn[msg.txid := TxnEntry(src, now)] else m.stunTxn,
         endpointOwner := if k in m.endpointOwner && m.endpointOwner[k].owner == src
                          then Touch(m.endpointOwner, k, now) else m.endpointOwner)
    case None =>
      if k !in m.endpointOwner then
        var mine := if src in m.ownerEndpoints then m.ownerEndpoints[src] else {};
        m.(endpointOwner := m.endpointOwner[k := OwnerEntry(src, now)],
           ownerEndpoints := m.ownerEndpoints[src := mine + {k}])
      else if m.endpointOwner[k].owner != src then
        m.(drops := m.drops.(collision := m.drops.collision + 1))
      else
        m.(endpointOwner := Touch(m.endpointOwner, k, now))
  }

  /** Whether the datagram is handed to the global fd. */
  predicate Accepts(m: Mux, src: Source, k: nat, info: Option<StunInfo>) {
    info.Some? || k !in m.endpointOwner || m.endpointOwner[k].owner == src
  }

  function AfterDemux(m: Mux, k: nat, info: Option<StunInfo>, now: Time): Mux {
    if info.Some? && IsResponse(info.value) then
      if info.value.txid in m.stunTxn then m.(stunTxn := m.stunTxn - {info.value.txid})
      else m.(drops := m.drops.(txidMiss := m.drops.txidMiss + 1))
    else if k in m.endpointOwner then m.(endpointOwner := Touch(m.endpointOwner, k, now))
    else m.(drops := m.drops.(endpointMiss := m.drops.endpointMiss + 1))
  }

  /** The inner source a datagram from endpoint `k` is injected for. */
  function Receiver(m: Mux, k: nat, info: Option<StunInfo>): Option<Source> {
    if info.Some? && IsResponse(info.value) then
      if info.value.txid in m.stunTxn then Some(m.stunTxn[info.value.txid].innerSrc) else None
    else if k in m.endpointOwner then Some(m.endpointOwner[k].owner)
    else None
  }

  function AfterSourceGone(m: Mux, src: Source): Mux {
    m.(endpointOwner := map k | k in m.endpointOwner && m.endpointOwner[k].owner != src :: m.endpointOwner[k],
       ownerEndpoints := m.ownerEndpoints - {src})
  }

  function FreshOwners(owners: Owners, now: Time): Owners {
    map k | k in owners && now - owners[k].lastActive <= ENDPOINT_IDLE :: owners[k]
  }

  function FreshTxns(txns: map<Bytes, TxnEntry>, now: Time): map<Bytes, TxnEntry> {
    map t | t in txns && now - txns[t].createdAt <= TXN_IDLE :: txns[t]
  }

  /** Exactly the endpoints idle at most 30 s and the transactions aged at most 40 s remain. */
  function AfterReap(m: Mux, now: Time): Mux {
    var owners := FreshOwners(m.endpointOwner, now);
    m.(endpointOwner := owners, stunTxn := FreshTxns(m.stunTxn, now), ownerEndpoints := Inverse(owners))
  }

  function AfterShutdown(m: Mux): Mux { m.(endpointOwner := map[], stunTxn := map[], ownerEndpoints := map[]) }

  // ---- runs ----

  datatype Event =
    | Send(src: Source, key: nat, data: Bytes, now: Time)
    | Recv(key: nat, data: Bytes, now: Time)
    | SourceGone(src: Source)
    | Reap(now: Time)
    | Shutdown

  function Step(m: Mux, e: Event): Mux {
    match e
    case Send(src, k, data, now) => AfterSend(m, src, k, StunParse(data), now)
    case Recv(k, data, now) => AfterDemux(m, k, StunParse(data), now)
    case SourceGone(src) => AfterSourceGone(m, src)
    case Reap(now) => AfterReap(m, now)
    case Shutdown => AfterShutdown(m)
  }

  ghost predicate IsRun(run: seq<Mux>, events: seq<Event>) {
    && |run| == |events| + 1
    && run[0] == Empty()
    && forall i :: 0 <= i < |events| ==> run[i + 1] == Step(run[i], events[i])
  }

  lemma RunExtends(run: seq<Mux>, events: seq<Event>, e: Event)
    requires IsRun(run, events)
    ensures IsRun(run + [Step(run[|events|], e)], events + [e])
  {
    hide Step;
  }

  lemma ClaimInverse(owners: Owners, index: Index, src: Source, k: nat, now: Time)
    requires IsInverse(owners, index) && k !in owners
    ensures var mine := if src in index then index[src] else {};
            IsInverse(owners[k := OwnerEntry(src, now)], index[src := mine + {k}])
  {}

  lemma SendInverse(m: Mux, src: Source, k: nat, info: Option<StunInfo>, now: Time)
    requires IsInverse(m.endpointOwner, m.ownerEndpoints)
    ensures var m' := AfterSend(m, src, k, info, now); IsInverse(m'.endpointOwner, m'.ownerEndpoints)
  {
    if info.None? && k !in m.endpointOwner { ClaimInverse(m.endpointOwner, m.ownerEndpoints, src, k, now); }
  }

  /** A send adds nothing to the tables but entries of its own source and time. */
  lemma SendAddsOwn(m: Mux, src: Source, k: nat, info: Option<StunInfo>, now: Time)
    ensures var m' := AfterSend(m, src, k, info, now);
            && (forall j :: j in m'.endpointOwner ==>
                  || m'.endpointOwner[j] == OwnerEntry(src, now)
                  || (j in m.endpointOwner && m'.endpointOwner[j] == m.endpointOwner[j]))
            && (forall t :: t in m'.stunTxn ==>
                  m'.stunTxn[t] == TxnEntry(src, now) || (t in m.stunTxn && m'.stunTxn[t] == m.stunTxn[t]))
  {}

  lemma StepInverse(m: Mux, e: Event)
    requires IsInverse(m.endpointOwner, m.ownerEndpoints)
    ensures IsInverse(Step(m, e).endpointOwner, Step(m, e).ownerEndpoints)
  {
    match e
    case Send(src, k, data, now) => SendInverse(m, src, k, StunParse(data), now);
    case Reap(now) => InverseIsInverse(FreshOwners(m.endpointOwner, now));
    case _ =>
  }

  /** In every reachable state the reverse index is the exact inverse of the owner table. */
  lemma {:induction false} ReverseIndexExact(run: seq<Mux>, events: seq<Event>, i: nat)
    requires IsRun(run, events) && i < |run|
    ensures IsInverse(run[i].endpointOwner, run[i].ownerEndpoints)
    ensures run[i].ownerEndpoints == Inverse(run[i].endpointOwner)
  {
    if i > 0 {
      ReverseIndexExact(run, events, i - 1);
      StepInverse(run[i - 1], events[i - 1]);
    }
    InverseIsInverse(run[i].endpointOwner);
    InverseUnique(run[i].endpointOwner, run[i].ownerEndpoints, Inverse(run[i].endpointOwner));
  }
}
