/** The request window: over any run, at most 256 chunk requests of one device
    are outstanding, summed over all its downloads. Source: the budget in
    mosh-core/src/attachment_runtime/requests.rs. */
module AttachmentWindow {
  import opened Wrappers
  import opened Primitives
  import opened AttachmentTypes
  import opened AttachmentTransfers
  import opened AttachmentSystem
  import Ops = AttachmentOperations

  /** No request is stamped later than the clock. */
  ghost predicate Stamped(rt: Runtime, clock: nat) {
    forall id :: id in rt.incoming ==> StampedBy(rt.incoming[id].requestedAt, clock)
  }

  ghost predicate StampedBy(requestedAt: map<nat, nat>, clock: nat) {
    forall i :: i in requestedAt ==> requestedAt[i] <= clock
  }

  ghost predicate WithinWindow(d: Device) {
    Stamped(d.rt, d.clock) && |Ops.InFlight(d.rt, d.clock)| <= MAX_REQUEST_BATCH
  }

  /** Waiting can only shrink what is outstanding. */
  lemma WaitingShrinks(rt: Runtime, now: nat, later: nat)
    requires Stamped(rt, now) && now <= later
    ensures Ops.InFlight(rt, later) <= Ops.InFlight(rt, now)
  {
    forall id, i | (id, i) in Ops.InFlight(rt, later) ensures (id, i) in Ops.InFlight(rt, now) {
      assert StampedBy(rt.incoming[id].requestedAt, now);
    }
  }

  /** After the timeout nothing is outstanding. */
  lemma TimeoutClears(rt: Runtime, now: nat, later: nat)
    requires Stamped(rt, now) && now + CHUNK_REQUEST_TIMEOUT <= later
    ensures Ops.InFlight(rt, later) == {}
  {
    forall id, i ensures (id, i) !in Ops.InFlight(rt, later) {
      if id in rt.incoming {
        assert StampedBy(rt.incoming[id].requestedAt, now);
      }
    }
  }

  /** u asks for nothing that transfer id of rt was not already asking for. */
  ghost predicate Calmer(rt: Runtime, u: Incoming, id: string) {
    u.requestedAt == map[] || (id in rt.incoming && Continues(rt.incoming[id], u))
  }

  lemma {:induction false} CalmerAsksNothingNew(rt: Runtime, after: Runtime, clock: nat)
    requires Stamped(rt, clock)
    requires forall id {:trigger Calmer(rt, after.incoming[id], id)} ::
               id in after.incoming ==> Calmer(rt, after.incoming[id], id)
    ensures Stamped(after, clock)
    ensures Ops.InFlight(after, clock) <= Ops.InFlight(rt, clock)
  {
    forall id | id in after.incoming ensures StampedBy(after.incoming[id].requestedAt, clock) {
      assert Calmer(rt, after.incoming[id], id);
      assert id in rt.incoming ==> StampedBy(rt.incoming[id].requestedAt, clock);
    }
    forall id, i | (id, i) in Ops.InFlight(after, clock) ensures (id, i) in Ops.InFlight(rt, clock) {
      assert Calmer(rt, after.incoming[id], id);
    }
  }

  /** Only a request puts requests in flight. */
  lemma {:induction false} OthersOnlyShrink(rt: Runtime, op: Operation, clock: nat)
    requires Sound(rt) && Stamped(rt, clock) && !op.Request?
    ensures Stamped(Apply(rt, op).0, clock)
    ensures Ops.InFlight(Apply(rt, op).0, clock) <= Ops.InFlight(rt, clock)
  {
    var after := Apply(rt, op).0;
    forall id | id in after.incoming ensures Calmer(rt, after.incoming[id], id) {
      TransferOnlyCalms(rt, op, id);
    }
    CalmerAsksNothingNew(rt, after, clock);
  }

  lemma {:induction false} TransferOnlyCalms(rt: Runtime, op: Operation, id: string)
    requires Sound(rt) && !op.Request? && id in Apply(rt, op).0.incoming
    ensures Calmer(rt, Apply(rt, op).0.incoming[id], id)
  {
    StandsStill(rt, id);
    match op
    case Register(m) =>
    case Start(k) => StartOnlyCalms(rt, k, id);
    case Ingest(frame) => IngestOnlyCalms(rt, frame, id);
    case Stream(k, start, end) => StreamOnlyCalms(rt, k, start, end, id);
    case Cancel(k) => StopsCalm(rt, k, id);
    case Fail(k) => StopsCalm(rt, k, id);
    case Forget(k) => StopsCalm(rt, k, id);
    case _ => SendersLeaveIncoming(rt, op);
  }

  lemma StartOnlyCalms(rt: Runtime, k: string, id: string)
    requires Sound(rt) && id in Ops.StartDownload(rt, k).0.incoming
    ensures Calmer(rt, Ops.StartDownload(rt, k).0.incoming[id], id)
  {
    StandsStill(rt, id);
    if k in rt.incoming {
      StartCalms(rt.incoming[k]);
    }
  }

  lemma IngestOnlyCalms(rt: Runtime, frame: ChunkFrame, id: string)
    requires Sound(rt) && id in Ops.IngestChunk(rt, frame).0.incoming
    ensures Calmer(rt, Ops.IngestChunk(rt, frame).0.incoming[id], id)
  {
    StandsStill(rt, id);
    if frame.attachmentId in rt.incoming {
      IngestCalms(rt.incoming[frame.attachmentId], frame);
    }
  }

  lemma StreamOnlyCalms(rt: Runtime, k: string, start: nat, end: nat, id: string)
    requires Sound(rt) && id in Ops.StreamedRange(rt, k, start, end).0.incoming
    ensures Calmer(rt, Ops.StreamedRange(rt, k, start, end).0.incoming[id], id)
  {
    StandsStill(rt, id);
    if k in rt.incoming {
      StreamCalms(rt.incoming[k], start, end);
    }
  }

  lemma StopsCalm(rt: Runtime, k: string, id: string)
    requires Sound(rt)
    ensures id in Ops.Cancel(rt, k).incoming ==> Calmer(rt, Ops.Cancel(rt, k).incoming[id], id)
    ensures id in Ops.FailIncoming(rt, k).incoming ==> Calmer(rt, Ops.FailIncoming(rt, k).incoming[id], id)
    ensures id in Ops.Forget(rt, k).incoming ==> Calmer(rt, Ops.Forget(rt, k).incoming[id], id)
  {
    if id in rt.incoming {
      assert WellFormed(rt.incoming[id]);
    }
  }

  lemma StandsStill(rt: Runtime, id: string)
    requires Sound(rt)
    ensures id in rt.incoming ==> Calmer(rt, rt.incoming[id], id)
  {
    if id in rt.incoming {
      assert WellFormed(rt.incoming[id]);
    }
  }

  /** v continues t without asking for anything new. */
  ghost predicate Continues(t: Incoming, v: Incoming) {
    || v.requestedAt == map[]
    || (&& v.requestedAt == t.requestedAt
        && (v.state == Active ==> t.state == Active && t.downloadStarted)
        && t.chunks.Keys <= v.chunks.Keys)
  }

  lemma StartCalms(t: Incoming)
    requires WellFormed(t)
    ensures Continues(t, t) && Continues(t, Ops.Started(t))
  {
  }

  lemma IngestCalms(t: Incoming, frame: ChunkFrame)
    requires WellFormed(t)
    ensures Continues(t, t) && Continues(t, Ops.Ingested(t, frame).0)
  {
    IngestEffect(t, frame);
  }

  lemma StreamCalms(t: Incoming, start: nat, end: nat)
    requires WellFormed(t)
    ensures Continues(t, t) && Continues(t, Ops.Streamed(t, start, end).0)
  {
  }

  /** The indices a call asks for; none if it makes no request. */
  ghost function AskedFor(request: Option<ChunkRequest>): (indices: seq<nat>) {
    if request.None? then [] else request.value.chunkIndices
  }

  /** How much a call may ask for. */
  ghost function Room(rt: Runtime, t: Incoming, now: nat, budget: nat): (room: int) {
    Min(Min(budget, MAX_REQUEST_BATCH - |Ops.InFlight(rt, now)|), RequestBatch(t.manifest.chunkSize))
  }

  /** A request adds what it asks for to what is in flight, and nothing else. */
  lemma {:induction false} RequestFillsFreeSlots(rt: Runtime, id: string, now: nat, budget: nat)
    requires Sound(rt) && Stamped(rt, now) && |Ops.InFlight(rt, now)| <= MAX_REQUEST_BATCH
    ensures var (rt', request) := Ops.NextRequest(rt, id, now, budget);
      && Stamped(rt', now) && |Ops.InFlight(rt', now)| <= MAX_REQUEST_BATCH
      && Ops.InFlight(rt', now) == Ops.InFlight(rt, now) + Asked(id, AskedFor(request))
      && |Ops.InFlight(rt', now)| == |Ops.InFlight(rt, now)| + |AskedFor(request)|
  {
    if id in rt.incoming && Room(rt, rt.incoming[id], now, budget) > 0
       && rt.incoming[id].downloadStarted && rt.incoming[id].state == Active {
      RequestFills(rt, id, now, budget);
    } else {
      NothingAsked(rt, id, now, budget);
    }
  }

  lemma NothingAsked(rt: Runtime, id: string, now: nat, budget: nat)
    requires |Ops.InFlight(rt, now)| <= MAX_REQUEST_BATCH
    requires !(id in rt.incoming && Room(rt, rt.incoming[id], now, budget) > 0
               && rt.incoming[id].downloadStarted && rt.incoming[id].state == Active)
    ensures Ops.NextRequest(rt, id, now, budget) == (rt, None)
  {
  }

  lemma RequestFills(rt: Runtime, id: string, now: nat, budget: nat)
    requires Sound(rt) && Stamped(rt, now) && |Ops.InFlight(rt, now)| <= MAX_REQUEST_BATCH
    requires id in rt.incoming && Room(rt, rt.incoming[id], now, budget) > 0
    requires rt.incoming[id].downloadStarted && rt.incoming[id].state == Active
    ensures var (rt', request) := Ops.NextRequest(rt, id, now, budget);
      && Stamped(rt', now) && |Ops.InFlight(rt', now)| <= MAX_REQUEST_BATCH
      && Ops.InFlight(rt', now) == Ops.InFlight(rt, now) + Asked(id, AskedFor(request))
      && |Ops.InFlight(rt', now)| == |Ops.InFlight(rt, now)| + |AskedFor(request)|
  {
    NextRequestEffect(rt, id, now, budget);
    var t := rt.incoming[id];
    var batch := Room(rt, t, now, budget);
    RequestShape(t, now, batch);
    MarkedCounts(rt, id, RequestIndices(t, now, batch).0, RequestIndices(t, now, batch).1, now);
  }

  /** A running download with room asks for what the policy makes of all of it. */
  lemma {:induction false} RequestUsesItsRoom(rt: Runtime, id: string, now: nat, budget: nat)
    requires Sound(rt) && id in rt.incoming && rt.incoming[id].downloadStarted && rt.incoming[id].state == Active
    requires Room(rt, rt.incoming[id], now, budget) > 0
    ensures var (rt', request) := Ops.NextRequest(rt, id, now, budget);
      && id in rt'.incoming
      && Policy(rt.incoming[id], now, Room(rt, rt.incoming[id], now, budget), rt'.incoming[id], AskedFor(request))
  {
    NextRequestEffect(rt, id, now, budget);
    RequestFollowsPolicy(rt.incoming[id], now, Room(rt, rt.incoming[id], now, budget));
  }

  /** The requests a batch puts in flight. */
  ghost function Asked(id: string, indices: seq<nat>): (r: set<(string, nat)>)
    ensures forall k, i :: (k, i) in r <==> k == id && i in indices
  {
    if indices == [] then {}
    else
      assert indices == indices[..|indices| - 1] + [indices[|indices| - 1]];
      Asked(id, indices[..|indices| - 1]) + {(id, indices[|indices| - 1])}
  }

  lemma {:induction false} AskedCounts(id: string, indices: seq<nat>)
    requires Increasing(indices)
    ensures |Asked(id, indices)| == |indices|
  {
    if indices != [] {
      var front, last := indices[..|indices| - 1], indices[|indices| - 1];
      AskedCounts(id, front);
      assert last !in front;
    }
  }

  /** One pair, before and after a batch was marked. */
  lemma MarkedPair(rt: Runtime, id: string, u: Incoming, indices: seq<nat>, now: nat, k: string, i: nat)
    requires id in rt.incoming && rt.incoming[id].downloadStarted && rt.incoming[id].state == Active
    requires forall j :: j in indices ==> Wanted(rt.incoming[id], j, now)
    requires u == rt.incoming[id].(requestCursor := u.requestCursor, priorityChunk := u.priorityChunk)
    ensures var rt' := rt.(incoming := rt.incoming[id := MarkRequested(u, indices, now)]);
      (k, i) in Ops.InFlight(rt', now) <==> (k, i) in Ops.InFlight(rt, now) || (k == id && i in indices)
    ensures k == id && i in indices ==> (k, i) !in Ops.InFlight(rt, now)
  {
  }

  lemma MarkedCounts(rt: Runtime, id: string, u: Incoming, indices: seq<nat>, now: nat)
    requires id in rt.incoming && Stamped(rt, now)
    requires rt.incoming[id].downloadStarted && rt.incoming[id].state == Active
    requires Increasing(indices) && forall i :: i in indices ==> Wanted(rt.incoming[id], i, now)
    requires u == rt.incoming[id].(requestCursor := u.requestCursor, priorityChunk := u.priorityChunk)
    ensures var rt' := rt.(incoming := rt.incoming[id := MarkRequested(u, indices, now)]);
      && Stamped(rt', now)
      && Ops.InFlight(rt', now) == Ops.InFlight(rt, now) + Asked(id, indices)
      && |Ops.InFlight(rt', now)| == |Ops.InFlight(rt, now)| + |indices|
  {
    MarkedInFlight(rt, id, u, indices, now);
    var rt' := rt.(incoming := rt.incoming[id := MarkRequested(u, indices, now)]);
    var before, added, after := Ops.InFlight(rt, now), Asked(id, indices), Ops.InFlight(rt', now);
    forall p ensures (p in after <==> p in before || p in added) && !(p in before && p in added) {
      MarkedPair(rt, id, u, indices, now, p.0, p.1);
    }
    AskedCounts(id, indices);
    DisjointCounts(after, before, added);
  }

  lemma DisjointCounts<T(!new)>(all: set<T>, a: set<T>, b: set<T>)
    requires forall x :: (x in all <==> x in a || x in b) && !(x in a && x in b)
    ensures all == a + b && |all| == |a| + |b|
  {
    assert all == a + b && a !! b;
  }

  lemma {:induction false} MarkedInFlight(rt: Runtime, id: string, u: Incoming, indices: seq<nat>, now: nat)
    requires id in rt.incoming && Stamped(rt, now)
    requires u == rt.incoming[id].(requestCursor := u.requestCursor, priorityChunk := u.priorityChunk)
    ensures var rt' := rt.(incoming := rt.incoming[id := MarkRequested(u, indices, now)]);
      && Stamped(rt', now)
      && Ops.InFlight(rt', now) <= Ops.InFlight(rt, now) + Asked(id, indices)
  {
    assert StampedBy(rt.incoming[id].requestedAt, now);
    var rt' := rt.(incoming := rt.incoming[id := MarkRequested(u, indices, now)]);
    forall k, i | (k, i) in Ops.InFlight(rt', now) && !(k == id && i in indices)
      ensures (k, i) in Ops.InFlight(rt, now)
    {
    }
  }

  lemma {:induction false} ApplyKeepsWindow(d: Device, op: Operation)
    requires Sound(d.rt) && WithinWindow(d) && (op.Request? ==> op.now >= d.clock)
    ensures WithinWindow(Device(Apply(d.rt, op).0, if op.Request? then op.now else d.clock))
  {
    if op.Request? {
      WaitingShrinks(d.rt, d.clock, op.now);
      SubsetCounts(Ops.InFlight(d.rt, op.now), Ops.InFlight(d.rt, d.clock));
      StampsLast(d.rt, d.clock, op.now);
      RequestFillsFreeSlots(d.rt, op.id, op.now, op.budget);
    } else {
      OthersOnlyShrink(d.rt, op, d.clock);
      SubsetCounts(Ops.InFlight(Apply(d.rt, op).0, d.clock), Ops.InFlight(d.rt, d.clock));
    }
  }

  ghost predicate AllWithinWindow(w: World) {
    forall d :: d in w.devices ==> WithinWindow(w.devices[d])
  }

  lemma {:induction false} StepKeepsWindow(w: World, e: Event)
    requires AllSound(w) && Enabled(w, e)
    requires AllWithinWindow(w)
    ensures AllWithinWindow(Step(w, e)) && Step(w, e).devices.Keys == w.devices.Keys
  {
    if e.On? {
      ApplyKeepsWindow(w.devices[e.device], e.operation);
    }
  }

  lemma StampsLast(rt: Runtime, now: nat, later: nat)
    requires Stamped(rt, now) && now <= later
    ensures Stamped(rt, later)
  {
    forall id | id in rt.incoming ensures StampedBy(rt.incoming[id].requestedAt, later) {
      assert StampedBy(rt.incoming[id].requestedAt, now);
    }
  }

  lemma FollowingKeepsWindow(ws: seq<World>, events: seq<Event>, n: nat)
    requires Follows(ws, events, n) && WindowAt(ws, n)
    ensures WindowAt(ws, n + 1)
  {
    StepKeepsWindow(ws[n], events[n]);
  }

  lemma {:induction false} WindowToTheEnd(ws: seq<World>, events: seq<Event>, n: nat)
    requires n < |ws| && (forall j :: 0 <= j < n ==> Follows(ws, events, j)) && AllWithinWindow(ws[0])
    ensures WindowAt(ws, n)
  {
    if n > 0 {
      WindowToTheEnd(ws, events, n - 1);
      FollowingKeepsWindow(ws, events, n - 1);
    }
  }

  ghost predicate WindowAt(ws: seq<World>, n: nat) {
    n < |ws| && AllWithinWindow(ws[n]) && ws[n].devices.Keys == ws[0].devices.Keys
  }

  lemma {:induction false} TraceKeepsWindow(ws: seq<World>, events: seq<Event>, n: nat)
    requires Trace(ws, events) && AllSound(ws[0]) && n < |ws|
    requires AllWithinWindow(ws[0])
    ensures AllWithinWindow(ws[n]) && ws[n].devices.Keys == ws[0].devices.Keys
  {
    forall j | 0 <= j < n ensures Follows(ws, events, j) {
      StepOfTrace(ws, events, j);
    }
    WindowToTheEnd(ws, events, n);
  }

  /** Chunk i was asked for in the last ten seconds by a download that still runs, and
      has not come. */
  ghost predicate Awaited(rt: Runtime, id: string, i: nat, now: nat) {
    && id in rt.incoming
    && var t := rt.incoming[id];
    && t.downloadStarted && t.state == Active
    && i !in t.chunks && i in t.requestedAt && now < t.requestedAt[i] + 10_000_000_000
  }

  /** In every world reached by any run, and at any later time, no device awaits more
      than 256 chunks over all its downloads. */
  lemma {:induction false} WindowIsGlobal(
    names: set<string>, ws: seq<World>, events: seq<Event>, n: nat, d: string, later: nat, awaited: set<(string, nat)>)
    requires Trace(ws, events) && ws[0] == Boot(names) && n < |ws| && d in names
    ensures d in ws[n].devices
    ensures later >= ws[n].devices[d].clock && (forall id, i :: (id, i) in awaited ==> Awaited(ws[n].devices[d].rt, id, i, later)) ==>
      |awaited| <= 256
  {
    forall x | x in names ensures WithinWindow(Boot(names).devices[x]) {
      assert Ops.InFlight(Boot(names).devices[x].rt, 0) == {};
    }
    TraceKeepsWindow(ws, events, n);
    var device := ws[n].devices[d];
    if later >= device.clock && forall id, i :: (id, i) in awaited ==> Awaited(device.rt, id, i, later) {
      WaitingShrinks(device.rt, device.clock, later);
      SubsetCounts(Ops.InFlight(device.rt, later), Ops.InFlight(device.rt, device.clock));
      StampsLast(device.rt, device.clock, later);
      AwaitedIsInFlight(device.rt, later, awaited);
      SubsetCounts(awaited, Ops.InFlight(device.rt, later));
    }
  }

  lemma AwaitedIsInFlight(rt: Runtime, now: nat, awaited: set<(string, nat)>)
    requires Stamped(rt, now) && forall id, i :: (id, i) in awaited ==> Awaited(rt, id, i, now)
    ensures awaited <= Ops.InFlight(rt, now)
  {
    forall p | p in awaited ensures p in Ops.InFlight(rt, now) {
      OnePairAwaited(rt, now, p.0, p.1);
      assert p == (p.0, p.1);
    }
    assert forall p :: p in awaited ==> p in Ops.InFlight(rt, now);
  }

  lemma OnePairAwaited(rt: Runtime, now: nat, id: string, i: nat)
    requires Stamped(rt, now) && Awaited(rt, id, i, now)
    ensures (id, i) in Ops.InFlight(rt, now)
  {
  }
}
