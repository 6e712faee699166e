/**
 * Pushing the configured routes to a client, updateSysRoute of server.cc, and their decoding, handleRouteMsg of
 * client.cc. A ROUTE frame is a header of four bytes, the second being the number of entries, and 12 bytes an entry.
 */
module RoutePush {
  import opened Prelude
  import opened Net
  import opened Subnets

  const ROUTE: Byte := 6
  const HEADER := 4
  const ENTRY := 12
  // What handleWebsocket allocates for a frame received; the buffer is reused for the frames sent.
  const CAPACITY := 1500

  datatype SysRoute = SysRoute(dev: Address, dst: Address, next: IP4)

  type Entry = e: Bytes | |e| == ENTRY witness [0, 0, 0, 0, 0, 0, 0, 0, 0, 0, 0, 0]

  predicate AppliesTo(rt: SysRoute, ip: IP4) { And(rt.dev.mask, ip) == rt.dev.host }

  /** A SysRouteEntry: destination network, its mask, next hop. */
  function EntryOf(rt: SysRoute): Entry { rt.dst.Net() + rt.dst.mask + rt.next }

  /** What the client is to learn: the entries of the rules that apply to it, in the order of the rules. */
  function Selected(routes: seq<SysRoute>, ip: IP4): seq<Entry> {
    if routes == [] then []
    else (if AppliesTo(routes[0], ip) then [EntryOf(routes[0])] else []) + Selected(routes[1..], ip)
  }

  function Frame(entries: seq<Entry>): Bytes
    requires |entries| < 256
  {
    [ROUTE, ByteOf(|entries|), 0, 0] + Flatten(entries)
  }

  /** Cut into frames: 101 entries to each but the last. */
  function Frames(entries: seq<Entry>): (fs: seq<Bytes>) {
    if |entries| <= 100 then (if entries == [] then [] else [Frame(entries)])
    else [Frame(entries[..101])] + Frames(entries[101..])
  }

  // ---- the client ----

  /** The entries the client's loop reads out of a frame and what lies behind it in memory. */
  function Decoded(memory: Bytes, n: nat): seq<Entry>
    requires HEADER + ENTRY * n <= |memory|
  {
    seq(n, i requires 0 <= i < n => EntryAt(memory, i))
  }

  function EntryAt(memory: Bytes, i: nat): Entry
    requires HEADER + ENTRY * (i + 1) <= |memory|
  {
    memory[HEADER + ENTRY * i..HEADER + ENTRY * (i + 1)]
  }

  /** Is the frame as long as its size byte says? */
  predicate Complete(frame: Bytes) { |frame| < HEADER || HEADER + ENTRY * Num(frame[1]) <= |frame| }

  /** Nothing checks the size byte against the length of the frame; the loop may read what is behind the frame. */
  method HandleRouteMsg(frame: Bytes, behind: Bytes) returns (entries: seq<Entry>)
    requires |behind| >= ENTRY * 255
    ensures entries == if |frame| < HEADER then [] else Decoded(frame + behind, Num(frame[1]))
  {
    if |frame| < HEADER { return []; }
    entries := [];
    var memory := frame + behind;
    var idx, size := 0, Num(frame[1]);
    while idx < size
      invariant idx <= size && entries == Decoded(memory, idx)
    {
      entries := entries + [memory[HEADER + ENTRY * idx..HEADER + ENTRY * (idx + 1)]];
      idx := idx + 1;
    }
  }

  /** Two byte strings of equal length that differ in every place. */
  function Zeros(n: nat): Bytes { seq(n, i => 0) }

  function Ones(n: nat): Bytes { seq(n, i => 1) }

  lemma {:induction false} DecodedComplete(frame: Bytes, behind: Bytes, n: nat)
    requires HEADER + ENTRY * n <= |frame|
    ensures Decoded(frame + behind, n) == Decoded(frame, n)
  {
    forall i | 0 <= i < n ensures EntryAt(frame + behind, i) == EntryAt(frame, i) {
      assert (frame + behind)[..|frame|] == frame;
    }
  }

  /** What the client makes of a frame depends on the frame alone exactly if the frame is complete. */
  lemma {:induction false} DecodingDependsExactly(frame: Bytes)
    requires |frame| >= HEADER
    ensures Complete(frame) <==>
            forall x: Bytes, y: Bytes :: |x| >= ENTRY * 255 && |y| >= ENTRY * 255 ==>
              Decoded(frame + x, Num(frame[1])) == Decoded(frame + y, Num(frame[1]))
  {
    var n := Num(frame[1]);
    if Complete(frame) {
      forall x: Bytes, y: Bytes | |x| >= ENTRY * 255 && |y| >= ENTRY * 255
        ensures Decoded(frame + x, n) == Decoded(frame + y, n)
      {
        DecodedComplete(frame, x, n);
        DecodedComplete(frame, y, n);
      }
    } else {
      var x, y := Zeros(ENTRY * 255), Ones(ENTRY * 255);
      var p, q := Decoded(frame + x, n)[n - 1], Decoded(frame + y, n)[n - 1];
      assert p[ENTRY - 1] == (frame + x)[HEADER + ENTRY * n - 1] == 0;
      assert q[ENTRY - 1] == (frame + y)[HEADER + ENTRY * n - 1] == 1;
    }
  }

  /** A frame that counts one entry and holds none is decoded to whatever lies behind it. */
  lemma {:induction false} ShortFrame(x: Bytes, y: Bytes)
    requires |x| >= ENTRY * 255 && |y| >= ENTRY * 255 && x[0] != y[0]
    ensures var frame: Bytes := [ROUTE, 1, 0, 0];
            && Num(frame[1]) == 1 && !Complete(frame)
            && Decoded(frame + x, 1) == [x[..ENTRY]] && Decoded(frame + x, 1) != Decoded(frame + y, 1)
  {
    var frame: Bytes := [ROUTE, 1, 0, 0];
    assert EntryAt(frame + x, 0) == x[..ENTRY] && EntryAt(frame + y, 0) == y[..ENTRY];
    assert Decoded(frame + x, 1)[0][0] == x[0] && Decoded(frame + y, 1)[0][0] == y[0];
  }

  // ---- the server ----

  class WsCtx {
    var ip: IP4
    var buffer: Bytes
    var sent: seq<Bytes>

    constructor (ip: IP4)
      ensures this.ip == ip && buffer == [] && sent == []
    {
      this.ip := ip;
      buffer := [];
      sent := [];
    }

    /** The buffer grows within the storage it has, so that a pointer into it stays valid. */
    method Append(data: Bytes)
      requires |buffer| + |data| <= CAPACITY
      modifies `buffer
      ensures buffer == old(buffer) + data
    {
      buffer := buffer + data;
    }

    method SendFrame()
      modifies `sent
      ensures sent == old(sent) + [buffer]
    {
      sent := sent + [buffer];
    }
  }

  lemma {:induction false} FlattenLength(entries: seq<Entry>)
    ensures |Flatten(entries)| == ENTRY * |entries|
  {
    if entries != [] { FlattenLength(entries[1..]); }
  }

  lemma {:induction false} FrameGrows(entries: seq<Entry>, e: Entry)
    requires |entries| <= 100
    ensures |Frame(entries)| == HEADER + ENTRY * |entries|
    ensures Frame(entries + [e]) == (Frame(entries) + e)[1 := ByteOf(|entries| + 1)]
    ensures Frame(entries + [e])[..HEADER][1 := 0] == Frame([])
  {
    hide Flatten, Num, ByteOf;
    FlattenLength(entries);
    FlattenSnoc(entries, e);
    HeaderUpdate(Flatten(entries), e, ByteOf(|entries|), ByteOf(|entries| + 1));
    EmptyFrame();
  }

  lemma HeaderUpdate(body: Bytes, e: Bytes, was: Byte, now: Byte)
    ensures [ROUTE, now, 0, 0] + (body + e) == (([ROUTE, was, 0, 0] + body) + e)[1 := now]
    ensures ([ROUTE, now, 0, 0] + (body + e))[..HEADER][1 := 0] == [ROUTE, 0, 0, 0]
  {
  }

  lemma {:induction false} FullFrame(full: seq<Entry>, rest: seq<Entry>)
    requires |full| == 101
    ensures Frames(full + rest) == [Frame(full)] + Frames(rest)
  {
    assert (full + rest)[..101] == full && (full + rest)[101..] == rest;
  }

  lemma {:induction false} NextSelected(pending: seq<Entry>, routes: seq<SysRoute>, i: nat, ip: IP4)
    requires i < |routes|
    ensures var more := if AppliesTo(routes[i], ip) then [EntryOf(routes[i])] else [];
            pending + Selected(routes[i..], ip) == (pending + more) + Selected(routes[i + 1..], ip)
  {
    assert routes[i..][1..] == routes[i + 1..];
  }

  lemma EmptyFrame()
    ensures Frame([]) == [ROUTE, 0, 0, 0]
  {
  }

  lemma LastFrame(pending: seq<Entry>, routes: seq<SysRoute>, ip: IP4)
    requires |pending| <= 100 && routes == []
    ensures Frames(pending + Selected(routes, ip)) == if pending == [] then [] else [Frame(pending)]
  {
    assert pending + [] == pending;
  }

  /**
   * The loop fills the context's buffer and sends it whenever it counts more than 100 entries. The buffer never
   * outgrows its capacity, so that the header written through a pointer into it stays in place.
   */
  method UpdateSysRoute(routes: seq<SysRoute>, ctx: WsCtx)
    modifies ctx`buffer, ctx`sent
    ensures ctx.sent == old(ctx.sent) + Frames(Selected(routes, ctx.ip)) && |ctx.buffer| <= CAPACITY
  {
    hide Frame, Frames, Selected, And, Address.Net, Flatten;
    ctx.buffer := [ROUTE, 0, 0, 0];
    assert ctx.buffer == Frame([]) by { EmptyFrame(); }
    var size, i := 0, 0;
    ghost var pending: seq<Entry> := [];
    ghost var all := Selected(routes, ctx.ip);
    assert routes[0..] == routes && [] + all == all;
    while i < |routes|
      invariant i <= |routes|
      invariant size == |pending| <= 100 && ctx.buffer == Frame(pending) && |ctx.buffer| <= CAPACITY
      invariant ctx.sent + Frames(pending + Selected(routes[i..], ctx.ip)) == old(ctx.sent) + Frames(all)
    {
      var rt := routes[i];
      NextSelected(pending, routes, i, ctx.ip);
      if And(rt.dev.mask, ctx.ip) == rt.dev.host {
        FrameGrows(pending, EntryOf(rt));
        ctx.Append(rt.dst.Net() + rt.dst.mask + rt.next);
        size := size + 1;
        ctx.buffer := ctx.buffer[1 := ByteOf(size)];
        pending := pending + [EntryOf(rt)];
      } else {
        assert pending + [] == pending;
      }
      i := i + 1;
      ghost var rest := Selected(routes[i..], ctx.ip);
      if size > 100 {
        FullFrame(pending, rest);
        assert ctx.sent + ([Frame(pending)] + Frames(rest)) == (ctx.sent + [Frame(pending)]) + Frames(rest);
        ctx.SendFrame();
        ctx.buffer := ctx.buffer[..HEADER][1 := 0];
        size := 0;
        pending := [];
        assert [] + rest == rest;
      }
    }
    LastFrame(pending, routes[i..], ctx.ip);
    if size > 0 {
      ctx.SendFrame();
    }
  }

  // ---- the round trip ----

  lemma {:induction false} FlattenSlice(entries: seq<Entry>, i: nat)
    requires i < |entries|
    ensures |Flatten(entries)| == ENTRY * |entries|
    ensures Flatten(entries)[ENTRY * i..ENTRY * (i + 1)] == entries[i]
  {
    FlattenLength(entries);
    if i > 0 {
      FlattenSlice(entries[1..], i - 1);
      Dropped(entries[0], Flatten(entries[1..]), ENTRY * (i - 1), ENTRY * i);
    }
  }

  lemma Dropped(e: Entry, rest: Bytes, i: nat, j: nat)
    requires i <= j <= |rest|
    ensures (e + rest)[ENTRY + i..ENTRY + j] == rest[i..j]
  {
  }

  lemma FrameParts(entries: seq<Entry>)
    requires |entries| < 256
    ensures var f, body := Frame(entries), Flatten(entries);
            && |f| == HEADER + |body| && Num(f[1]) == |entries| && f[HEADER..] == body
            && f[0] == 6 && f[2] == 0 && f[3] == 0
  {
    hide Flatten, Num, ByteOf;
    AfterHeader(Flatten(entries), ByteOf(|entries|));
  }

  lemma AfterHeader(body: Bytes, size: Byte)
    ensures ([ROUTE, size, 0, 0] + body)[HEADER..] == body
    ensures ([ROUTE, size, 0, 0] + body)[..HEADER] == [ROUTE, size, 0, 0]
  {
  }

  lemma SubSlice(f: Bytes, i: nat, j: nat)
    requires HEADER <= |f| && i <= j <= |f| - HEADER
    ensures f[HEADER + i..HEADER + j] == f[HEADER..][i..j]
  {
  }

  lemma {:induction false} DecodeOfFrame(entries: seq<Entry>)
    requires |entries| < 256
    ensures var f := Frame(entries);
            && |f| == HEADER + ENTRY * |entries| && Num(f[1]) == |entries| && Decoded(f, |entries|) == entries
            && f[0] == 6 && f[2] == 0 && f[3] == 0
  {
    hide Frame, Flatten;
    FlattenLength(entries);
    FrameParts(entries);
    var f := Frame(entries);
    forall i | 0 <= i < |entries| ensures EntryAt(f, i) == entries[i] {
      FlattenSlice(entries, i);
      SubSlice(f, ENTRY * i, ENTRY * (i + 1));
    }
  }

  /** A ROUTE frame that holds as many entries as its size byte says, and fits in the buffers of either side. */
  predicate WellFormed(f: Bytes) {
    && 4 < |f| <= 1500 && f[0] == 6 && f[2] == 0 && f[3] == 0
    && 1 <= Num(f[1]) <= 101 && |f| == 4 + 12 * Num(f[1])
  }

  /** All a client decodes from a list of frames. */
  function DecodedAll(frames: seq<Bytes>): seq<Entry>
    requires forall f :: f in frames ==> WellFormed(f)
  {
    if frames == [] then []
    else
      assert WellFormed(frames[0]);
      Decoded(frames[0], Num(frames[0][1])) + DecodedAll(frames[1..])
  }

  /**
   * Every frame is well formed, with 1 to 101 entries in it; and decoding the frames gives the entries, all of
   * them and in their order.
   */
  lemma {:induction false} PushRoundTrip(entries: seq<Entry>)
    ensures forall f :: f in Frames(entries) ==> WellFormed(f) && Complete(f)
    ensures DecodedAll(Frames(entries)) == entries
    decreases |entries|
  {
    hide Frame, Decoded;
    if |entries| > 100 {
      var full, rest := entries[..101], entries[101..];
      DecodeOfFrame(full);
      PushRoundTrip(rest);
      assert Frames(entries)[0] == Frame(full) && Frames(entries)[1..] == Frames(rest);
      assert full + rest == entries;
    } else if entries != [] {
      DecodeOfFrame(entries);
      assert Frames(entries)[1..] == [];
    }
  }

  /** Every frame but the last is full, so no fewer frames would do. */
  lemma {:induction false} FrameCount(entries: seq<Entry>)
    ensures |Frames(entries)| == (|entries| + 100) / 101
    decreases |entries|
  {
    if |entries| > 100 { FrameCount(entries[101..]); }
  }

  /** What the client casts an entry to. */
  lemma EntryFields(rt: SysRoute)
    ensures var e := EntryOf(rt); e[..4] == rt.dst.Net() && e[4..8] == rt.dst.mask && e[8..] == rt.next
  {
  }

  /** For a rule setSdwan accepts, whose device address is its network, the test picks out the block of the subnet. */
  lemma {:induction false} AppliesExactly(rt: SysRoute, p: nat, ip: IP4)
    requires p <= 32 && IsMask(rt.dev.mask, p) && rt.dev.host == rt.dev.Net()
    ensures AppliesTo(rt, ip) <==> Value(rt.dev.host) <= Value(ip) < Value(rt.dev.host) + Size(p)
  {
    hide Value, IsMask, And, Size;
    AndCommutes(ip, rt.dev.mask);
    BlockExactly(ip, rt.dev, p);
  }

  lemma {:induction false} SelectedConcat(a: seq<SysRoute>, b: seq<SysRoute>, ip: IP4)
    ensures Selected(a + b, ip) == Selected(a, ip) + Selected(b, ip)
  {
    hide AppliesTo, EntryOf;
    if a == [] {
      assert a + b == b;
    } else {
      assert (a + b)[1..] == a[1..] + b;
      SelectedConcat(a[1..], b, ip);
    }
  }

  /** Rule by rule, in the order of the rules: the entry of each that applies, and of no other. */
  lemma {:induction false} SelectedExactly(routes: seq<SysRoute>, rt: SysRoute, ip: IP4)
    ensures Selected([], ip) == []
    ensures Selected(routes + [rt], ip) == Selected(routes, ip) + if AppliesTo(rt, ip) then [EntryOf(rt)] else []
  {
    hide AppliesTo, EntryOf;
    SelectedConcat(routes, [rt], ip);
    assert Selected([rt], ip) == (if AppliesTo(rt, ip) then [EntryOf(rt)] else []) + Selected([], ip);
  }
}
