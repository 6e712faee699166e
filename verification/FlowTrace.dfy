/** The flow table over whole runs, from the empty one. */
module FlowTrace {
  import opened Prelude
  import opened FlowModel

  /** A flow recorded, or one looked up for a packet of the tunnel; times are readings of the clock. */
  datatype Event =
    | Record(key: FlowKey, now: Time, reapNow: Time)
    | Lookup(key: FlowKey, now: Time)

  ghost predicate Step(f: Flows, e: Event, g: Flows) {
    match e
    case Record(k, now, reapNow) => Reaps(Touched(f, k, now), reapNow, g)
    case Lookup(k, now) => g == if k in f.table then Touched(f, k, now) else f
  }

  ghost predicate IsRun(es: seq<Event>, fs: seq<Flows>) {
    && |fs| == |es| + 1 && fs[0] == Flows(map[], 0)
    && forall i :: 0 <= i < |es| ==> Step(fs[i], es[i], fs[i + 1])
  }

  lemma RunExtends(es: seq<Event>, fs: seq<Flows>, e: Event, g: Flows)
    requires IsRun(es, fs) && Step(fs[|es|], e, g)
    ensures IsRun(es + [e], fs + [g])
  {
    hide Step;
  }

  // ---- capacity ----

  lemma {:induction false} Subset<T>(a: set<T>, b: set<T>)
    requires a <= b
    ensures |a| <= |b|
    ensures |a| == |b| ==> a == b
  {
    assert a + (b - a) == b;
    assert |a| + |b - a| == |b|;
  }

  lemma {:induction false} FreshSize(t: Table, now: Time)
    ensures |Fresh(t, now)| <= |t|
  {
    Subset(Fresh(t, now).Keys, t.Keys);
  }

  lemma {:induction false} TouchedSize(f: Flows, k: FlowKey, now: Time)
    ensures |Touched(f, k, now).table| == if k in f.table then |f.table| else |f.table| + 1
  {
    assert f.table[k := now].Keys == f.table.Keys + {k};
  }

  /** The table never holds more than 4096 flows between packets. */
  lemma {:induction false} Bounded(es: seq<Event>, fs: seq<Flows>, n: nat)
    requires IsRun(es, fs) && n <= |es|
    ensures |fs[n].table| <= 4096
  {
    if n > 0 {
      Bounded(es, fs, n - 1);
      var f := fs[n - 1];
      assert Step(f, es[n - 1], fs[n]);
      TouchedSize(f, es[n - 1].key, es[n - 1].now);
    }
  }

  // ---- ages ----

  /** When flow k was last recorded or, while in the table, looked up, before step n. */
  ghost function LastTouch(es: seq<Event>, fs: seq<Flows>, n: nat, k: FlowKey): Option<Time>
    requires |fs| == |es| + 1 && n <= |es|
  {
    if n == 0 then None
    else if es[n - 1].key == k && (es[n - 1].Record? || k in fs[n - 1].table) then Some(es[n - 1].now)
    else LastTouch(es, fs, n - 1, k)
  }

  /** The table keeps of every flow in it the time it was last touched. */
  lemma {:induction false} AgesExact(es: seq<Event>, fs: seq<Flows>, n: nat, k: FlowKey)
    requires IsRun(es, fs) && n <= |es| && k in fs[n].table
    ensures LastTouch(es, fs, n, k) == Some(fs[n].table[k])
  {
    if n > 0 {
      assert Step(fs[n - 1], es[n - 1], fs[n]);
      if !(es[n - 1].key == k && (es[n - 1].Record? || k in fs[n - 1].table)) {
        AgesExact(es, fs, n - 1, k);
      }
    }
  }

  /** When 10 s or more have passed since the last scan, recording a flow leaves none idle for over 300 s. */
  lemma {:induction false} ScansWhenDue(es: seq<Event>, fs: seq<Flows>, i: nat, k: FlowKey)
    requires IsRun(es, fs) && i < |es| && es[i].Record? && es[i].reapNow - fs[i].lastReap >= 10 * SECOND
    requires k in fs[i + 1].table
    ensures fs[i + 1].lastReap == es[i].reapNow
    ensures LastTouch(es, fs, i + 1, k).Some? && es[i].reapNow - LastTouch(es, fs, i + 1, k).value <= 300 * SECOND
  {
    assert Step(fs[i], es[i], fs[i + 1]);
    AgesExact(es, fs, i + 1, k);
  }

  /** Otherwise, as long as the table does not overflow, recording a flow removes none. */
  lemma {:induction false} NoScanKeepsAll(es: seq<Event>, fs: seq<Flows>, i: nat)
    requires IsRun(es, fs) && i < |es| && es[i].Record? && es[i].reapNow - fs[i].lastReap < 10 * SECOND
    requires es[i].key in fs[i].table || |fs[i].table| < 4096
    ensures fs[i + 1] == Flows(fs[i].table[es[i].key := es[i].now], fs[i].lastReap)
  {
    assert Step(fs[i], es[i], fs[i + 1]);
    Bounded(es, fs, i);
    TouchedSize(fs[i], es[i].key, es[i].now);
  }

  // ---- membership ----

  /** The flows at step i just before they are reaped. */
  ghost function Unreaped(es: seq<Event>, fs: seq<Flows>, i: nat): Flows
    requires |fs| == |es| + 1 && i < |es|
  {
    Touched(fs[i], es[i].key, es[i].now)
  }

  /** Step i scans the table, and at that moment k has not been touched for more than 300 s. */
  ghost predicate Expires(es: seq<Event>, fs: seq<Flows>, i: nat, k: FlowKey)
    requires |fs| == |es| + 1 && i < |es|
  {
    && es[i].Record? && Scans(Unreaped(es, fs, i), es[i].reapNow)
    && LastTouch(es, fs, i + 1, k).Some? && es[i].reapNow - LastTouch(es, fs, i + 1, k).value > 300 * SECOND
  }

  /** Step i evicts k: more than 4096 flows had not expired, and k is none of those kept. */
  ghost predicate Evicts(es: seq<Event>, fs: seq<Flows>, i: nat, k: FlowKey)
    requires |fs| == |es| + 1 && i < |es|
  {
    && es[i].Record? && Scans(Unreaped(es, fs, i), es[i].reapNow)
    && |Fresh(Unreaped(es, fs, i).table, es[i].reapNow)| > 4096
    && k in Fresh(Unreaped(es, fs, i).table, es[i].reapNow) && k !in fs[i + 1].table
  }

  /** k was recorded at a step before n, and at no step since has it expired or been evicted. */
  ghost predicate Remembered(es: seq<Event>, fs: seq<Flows>, n: nat, k: FlowKey)
    requires |fs| == |es| + 1 && n <= |es|
  {
    exists i :: 0 <= i < n && RecordedAndKept(es, fs, i, n, k)
  }

  ghost predicate RecordedAndKept(es: seq<Event>, fs: seq<Flows>, i: nat, n: nat, k: FlowKey)
    requires |fs| == |es| + 1 && i < n <= |es|
  {
    && es[i].Record? && es[i].key == k
    && forall j :: i <= j < n ==> !Expires(es, fs, j, k) && !Evicts(es, fs, j, k)
  }

  /** What one step does to one flow. */
  lemma {:induction false} OneStep(es: seq<Event>, fs: seq<Flows>, n: nat, k: FlowKey)
    requires IsRun(es, fs) && n < |es|
    ensures k in fs[n + 1].table <==>
              (k in fs[n].table || (es[n].Record? && es[n].key == k))
              && !Expires(es, fs, n, k) && !Evicts(es, fs, n, k)
  {
    var f, g := fs[n], fs[n + 1];
    assert Step(f, es[n], g);
    if k in f.table { AgesExact(es, fs, n, k); }
    if es[n].Record? && Scans(Unreaped(es, fs, n), es[n].reapNow) {
      var live := Fresh(Unreaped(es, fs, n).table, es[n].reapNow);
      assert Trimmed(live, g.table);
      if |live| <= 4096 { Subset(g.table.Keys, live.Keys); }
    }
  }

  /** A flow is in the table exactly if it was recorded, and neither expired nor was evicted since. */
  lemma {:induction false} MemberExactly(es: seq<Event>, fs: seq<Flows>, n: nat, k: FlowKey)
    requires IsRun(es, fs) && n <= |es|
    ensures k in fs[n].table <==> Remembered(es, fs, n, k)
  {
    hide Expires, Evicts, Step;
    if n > 0 {
      var m := n - 1;
      MemberExactly(es, fs, m, k);
      OneStep(es, fs, m, k);
      if k in fs[n].table {
        if k in fs[m].table {
          var i :| 0 <= i < m && RecordedAndKept(es, fs, i, m, k);
          assert RecordedAndKept(es, fs, i, n, k);
        } else {
          assert RecordedAndKept(es, fs, m, n, k);
        }
      }
      if i :| 0 <= i < n && RecordedAndKept(es, fs, i, n, k) {
        if i < m { assert RecordedAndKept(es, fs, i, m, k); }
      }
    }
  }

  /** What is evicted has not been touched later than anything that is kept, and the table is then full. */
  lemma {:induction false} EvictedOldest(es: seq<Event>, fs: seq<Flows>, i: nat, k: FlowKey, kept: FlowKey)
    requires IsRun(es, fs) && i < |es| && Evicts(es, fs, i, k) && kept in fs[i + 1].table
    ensures |fs[i + 1].table| == 4096
    ensures LastTouch(es, fs, i + 1, k).Some? && LastTouch(es, fs, i + 1, kept).Some?
    ensures LastTouch(es, fs, i + 1, k).value <= LastTouch(es, fs, i + 1, kept).value
  {
    assert Step(fs[i], es[i], fs[i + 1]);
    AgesExact(es, fs, i + 1, kept);
    if k in fs[i].table { AgesExact(es, fs, i, k); }
  }

  /** So unless another flow is exactly as old, a scan evicts the oldest flow that has not expired, and no other. */
  lemma {:induction false} EvictsExactly(es: seq<Event>, fs: seq<Flows>, i: nat, k: FlowKey)
    requires IsRun(es, fs) && i < |es| && es[i].Record?
    requires var live := Fresh(Unreaped(es, fs, i).table, es[i].reapNow);
             forall j :: k in live && j in live && j != k ==> live[j] != live[k]
    ensures var live := Fresh(Unreaped(es, fs, i).table, es[i].reapNow);
            Evicts(es, fs, i, k) <==> |live| > 4096 && k in live && forall j :: j in live ==> live[k] <= live[j]
  {
    var t, g := Unreaped(es, fs, i).table, fs[i + 1].table;
    var live := Fresh(t, es[i].reapNow);
    assert Step(fs[i], es[i], fs[i + 1]);
    Bounded(es, fs, i);
    TouchedSize(fs[i], es[i].key, es[i].now);
    FreshSize(t, es[i].reapNow);
    if |live| > 4096 && k in live {
      assert Trimmed(live, g);
      if k !in g {
        forall j | j in live ensures live[k] <= live[j] {
          OneGone(g.Keys, live.Keys, k, j);
        }
      } else {
        SomeGone(g.Keys, live.Keys);
        var x :| x in live && x !in g;
        assert live[x] <= live[k] && live[x] != live[k];
      }
    }
  }

  lemma {:induction false} SomeGone<T>(kept: set<T>, all: set<T>)
    requires kept <= all && |kept| < |all|
    ensures exists x :: x in all && x !in kept
  {
    if all <= kept { Subset(all, kept); }
  }

  lemma {:induction false} OneGone<T>(kept: set<T>, all: set<T>, k: T, j: T)
    requires kept <= all && k in all && k !in kept && j in all
    ensures |kept| < |all|
    ensures |all| == |kept| + 1 && j != k ==> j in kept
  {
    Subset(kept, all - {k});
  }

  /** A flow just recorded stays, even over capacity, if any flow that has not expired is older. */
  lemma {:induction false} NewestStays(es: seq<Event>, fs: seq<Flows>, i: nat, older: FlowKey)
    requires IsRun(es, fs) && i < |es| && es[i].Record? && es[i].reapNow - es[i].now <= 300 * SECOND
    requires older in fs[i].table && fs[i].table[older] < es[i].now
    requires es[i].reapNow - fs[i].table[older] <= 300 * SECOND
    ensures es[i].key in fs[i + 1].table
  {
    var k, g := es[i].key, fs[i + 1].table;
    var t := Unreaped(es, fs, i).table;
    assert Step(fs[i], es[i], fs[i + 1]);
    if Scans(Unreaped(es, fs, i), es[i].reapNow) {
      var live := Fresh(t, es[i].reapNow);
      assert Trimmed(live, g) && k in live && older in live;
      if k !in g {
        Bounded(es, fs, i);
        TouchedSize(fs[i], k, es[i].now);
        FreshSize(t, es[i].reapNow);
        OneGone(g.Keys, live.Keys, k, older);
      }
    }
  }

  /**
   * A packet of the tunnel with ports is taken for return traffic exactly if its reversed five-tuple is remembered.
   * In particular the answer to a packet whose flow is remembered is.
   */
  lemma {:induction false} AnswerRecognised(es: seq<Event>, fs: seq<Flows>, n: nat, pkt: Bytes)
    requires IsRun(es, fs) && n <= |es| && ParseInnerL4(pkt).Some?
    ensures ParseInnerL4(Answer(pkt)).Some?
    ensures Reversed(ParseInnerL4(Answer(pkt)).value) in fs[n].table <==> Remembered(es, fs, n, ParseInnerL4(pkt).value)
  {
    hide ParseInnerL4, Answer;
    AnswerReverses(pkt);
    MemberExactly(es, fs, n, ParseInnerL4(pkt).value);
  }
}
