/** The devices of one account over whole runs: renames, pages in flight, stores
    that refuse, and restarts from disk. Source: mosh-core/src/chat_names/mod.rs,
    with the exchange of mosh-core/src/device_link/runtime/names.rs.

    `seen` and `stored` are history: every record the memory, and the disk, of a
    device ever absorbed. */
module ChatNamesNetwork {
  import opened Wrappers
  import opened Primitives
  import opened ChatNamesTypes
  import opened ChatNamesRegister
  import opened ChatNamesJoin

  datatype Replica = Replica(
    memory: Register, disk: Option<Text<Register>>, seen: set<NameRecord>, stored: set<NameRecord>)

  /** The devices, and every record ever sent in a page. */
  datatype World = World(replicas: map<string, Replica>, wire: set<NameRecord>)

  datatype Event =
    | Naming(device: string, key: string, value: string, outcome: WriteOutcome)
    | Resetting(device: string, key: string, outcome: WriteOutcome)
    | Sending(device: string, after: Option<string>)
    | Receiving(device: string, records: seq<NameRecord>, initial: bool, outcome: WriteOutcome)
    | Restarting(device: string)

  /** Any records off the wire may arrive, in any grouping and order. */
  ghost predicate Enabled(w: World, e: Event) {
    e.device in w.replicas && (e.Receiving? ==> RecordSet(e.records) <= w.wire)
  }

  ghost function Settle(r: Replica, e: Effect, batch: set<NameRecord>): (r': Replica) {
    Replica(
      e.memory,
      if e.written.Some? then Some(Encoded(e.written.value)) else r.disk,
      if e.result.Ok? then r.seen + batch else r.seen,
      if e.written.Some? then r.seen + batch else if e.result.Ok? then r.stored + batch else r.stored)
  }

  /** The record a write makes, if it gets as far as making one. */
  ghost function Written(reg: Register, actor: string, key: string, name: Option<string>): (r: set<NameRecord>) {
    if ValidKey(key) && NameOf(reg, key) != name && reg.clock + 1 < U64_LIMIT
    then {NameRecord(key, NameVersion(reg.clock + 1, actor), name)} else {}
  }

  ghost function Write(r: Replica, actor: string, key: string, name: Option<string>, outcome: WriteOutcome): (r': Replica) {
    Settle(r, Assign(r.memory, actor, key, name, outcome), Written(r.memory, actor, key, name))
  }

  ghost function Reopen(r: Replica): (r': Replica) {
    match Opened(r.disk)
    case Ok(reg) => Replica(reg, r.disk, r.stored, r.stored)
    case Err(_) => r
  }

  ghost function Step(w: World, e: Event): (w': World)
    requires Enabled(w, e)
  {
    var r := w.replicas[e.device];
    match e
    case Naming(d, key, value, outcome) =>
      (match ValidateChatName(value)
       case Err(_) => w
       case Ok(name) => w.(replicas := w.replicas[d := Write(r, d, key, Some(name), outcome)]))
    case Resetting(d, key, outcome) => w.(replicas := w.replicas[d := Write(r, d, key, None, outcome)])
    case Sending(d, after) => w.(wire := w.wire + RecordSet(Page(r.memory.entries, after)))
    case Receiving(d, records, initial, outcome) =>
      w.(replicas := w.replicas[d := Settle(r, Merge(r.memory, records, initial, outcome), RecordSet(records))])
    case Restarting(d) => w.(replicas := w.replicas[d := Reopen(r)])
  }

  ghost predicate Admissible(w: World, events: seq<Event>)
    decreases events
  {
    events == [] || (Enabled(w, events[0]) && Admissible(Step(w, events[0]), events[1..]))
  }

  ghost function Run(w: World, events: seq<Event>): (w': World)
    requires Admissible(w, events)
    decreases events
  {
    if events == [] then w else Run(Step(w, events[0]), events[1..])
  }

  ghost function Boot(names: set<string>): (w: World) {
    World(map d | d in names :: Replica(EMPTY, None, {}, {}), {})
  }

  // ------------------------------------------------------------- the invariant

  /** Another device may have it: it was sent, or a memory holds it. */
  ghost predicate Published(w: World, r: NameRecord) {
    r in w.wire || exists d :: d in w.replicas && r in w.replicas[d].seen
  }

  ghost predicate Known(w: World, r: NameRecord) {
    r in w.wire || exists d :: d in w.replicas && (r in w.replicas[d].seen || r in w.replicas[d].stored)
  }

  predicate SameVersion(r: NameRecord, s: NameRecord) {
    r.version == s.version
  }

  /** No two different records share a version. */
  ghost predicate Unique(w: World) {
    forall r, s {:trigger SameVersion(r, s)} :: Known(w, r) && Known(w, s) && SameVersion(r, s) ==> r == s
  }

  ghost predicate AllKnownValid(w: World) {
    forall r {:trigger ValidRecord(r)} :: Known(w, r) ==> ValidRecord(r)
  }

  /** A published record is in the memory of the device that wrote it. */
  ghost predicate WritersRemember(w: World) {
    forall r {:trigger Published(w, r)} :: Published(w, r) ==>
      r.version.actor in w.replicas && r in w.replicas[r.version.actor].seen
  }

  /** What a disk has beyond the memory came off the wire, or is the device's own
      next write, which nobody has seen. */
  ghost predicate Ahead(w: World, d: string, r: NameRecord)
    requires d in w.replicas
  {
    r in w.replicas[d].stored && r !in w.replicas[d].seen ==>
      r in w.wire || (r.version.actor == d && r.version.counter == w.replicas[d].memory.clock + 1)
  }

  ghost predicate DisksAhead(w: World) {
    forall d, r {:trigger Ahead(w, d, r)} :: d in w.replicas ==> Ahead(w, d, r)
  }

  ghost predicate Coherent(r: Replica) {
    && Consistent(r.memory) && Joined(r.memory, r.seen)
    && Opened(r.disk).Ok? && Joined(Opened(r.disk).value, r.stored)
    && r.seen <= r.stored
  }

  ghost predicate AllCoherent(w: World) {
    forall d :: d in w.replicas ==> Coherent(w.replicas[d])
  }

  ghost predicate Inv(w: World) {
    Unique(w) && AllKnownValid(w) && WritersRemember(w) && DisksAhead(w) && AllCoherent(w)
  }

  // ------------------------------------------------------------- one replica

  lemma {:induction false} SeenBelowClock(reg: Register, seen: set<NameRecord>, r: NameRecord)
    requires Joined(reg, seen) && r in seen
    ensures r.version.counter <= reg.clock
  {
    OlderIsTotalOrder(r.version, reg.entries[r.key].version, reg.entries[r.key].version);
  }

  /** A batch that changed nothing in memory is already covered by the disk. */
  lemma {:induction false} CoveredOnDisk(
    memory: Register, disk: Register, seen: set<NameRecord>, stored: set<NameRecord>, batch: set<NameRecord>)
    requires Joined(memory, seen) && Joined(memory, seen + batch) && Joined(disk, stored) && seen <= stored
    ensures Joined(disk, stored + batch)
  {
    forall r | r in stored + batch ensures r.key in disk.entries && !Older(disk.entries[r.key].version, r.version) {
      if r in batch {
        assert r in seen + batch;
        var m := memory.entries[r.key];
        assert m in seen && m in stored;
        OlderIsTotalOrder(disk.entries[r.key].version, r.version, m.version);
        OlderIsTotalOrder(m.version, disk.entries[r.key].version, r.version);
        OlderIsTotalOrder(r.version, m.version, disk.entries[r.key].version);
      }
    }
  }

  ghost predicate Settled(r: Replica, r': Replica, batch: set<NameRecord>) {
    && Coherent(r') && r.seen <= r'.seen <= r.seen + batch
    && ((r'.memory == r.memory && r'.stored - r'.seen <= r.stored - r.seen && r'.stored <= r.stored + batch)
        || r'.stored == r.seen + batch)
    && (r'.memory == r.memory || r'.stored == r'.seen)
  }

  lemma MergePersists(memory: Register, records: seq<NameRecord>, initial: bool, outcome: WriteOutcome)
    requires AbsorbAll(memory.(initialSyncComplete := memory.initialSyncComplete || initial), records).Ok?
    ensures Merge(memory, records, initial, outcome)
         == Persist(memory, AbsorbAll(memory.(initialSyncComplete := memory.initialSyncComplete || initial), records).value, outcome)
  {
  }

  lemma {:induction false} StartAbsorbs(r: Replica, records: seq<NameRecord>, start: Register)
    requires Coherent(r) && OneEach(r.seen + RecordSet(records)) && AllValid(RecordSet(records))
    requires start.entries == r.memory.entries && start.clock == r.memory.clock
    ensures AbsorbAll(start, records).Ok?
    ensures Consistent(AbsorbAll(start, records).value)
    ensures Joined(AbsorbAll(start, records).value, r.seen + RecordSet(records))
  {
    assert Joined(start, r.seen);
    assert Consistent(start);
    AbsorbAllJoins(start, records, r.seen);
    AbsorbAllKeepsConsistent(start, records);
  }

  /** A merge without conflicting versions is refused only by the store, and
      leaves memory and disk the joins of what they absorbed. */
  lemma {:induction false} MergeSettles(r: Replica, records: seq<NameRecord>, initial: bool, outcome: WriteOutcome)
    requires Coherent(r) && OneEach(r.seen + RecordSet(records)) && AllValid(RecordSet(records))
    ensures var e := Merge(r.memory, records, initial, outcome);
      && e.result != Err(InvalidInput)
      && (outcome == Saved ==> e.result.Ok?)
      && Settled(r, Settle(r, e, RecordSet(records)), RecordSet(records))
  {
    var start := r.memory.(initialSyncComplete := r.memory.initialSyncComplete || initial);
    StartAbsorbs(r, records, start);
    var next := AbsorbAll(start, records).value;
    MergePersists(r.memory, records, initial, outcome);
    PersistSettles(r, next, RecordSet(records), outcome);
    PersistAnswers(r.memory, next, outcome);
  }

  lemma PersistAnswers(memory: Register, next: Register, outcome: WriteOutcome)
    ensures Persist(memory, next, outcome).result != Err(InvalidInput)
    ensures outcome == Saved ==> Persist(memory, next, outcome).result.Ok?
  {
  }

  lemma {:induction false} PersistSettles(r: Replica, next: Register, batch: set<NameRecord>, outcome: WriteOutcome)
    requires Coherent(r) && Consistent(next) && Joined(next, r.seen + batch)
    ensures Settled(r, Settle(r, Persist(r.memory, next, outcome), batch), batch)
  {
    if next == r.memory {
      CoveredOnDisk(r.memory, Opened(r.disk).value, r.seen, r.stored, batch);
    } else if outcome == Refused {
      assert Settle(r, Persist(r.memory, next, outcome), batch) == r;
    } else {
      assert Opened(Some(Encoded(next))) == Ok(next);
    }
  }

  lemma {:induction false} FreshVersion(r: Replica, x: NameRecord)
    requires Coherent(r) && x.version.counter == r.memory.clock + 1
    ensures OneEach(r.seen + {x})
    requires OneEach(r.seen)
  {
    forall s, t | s in r.seen + {x} && t in r.seen + {x} && SameSlot(s, t) ensures s == t {
      if s in r.seen { SeenBelowClock(r.memory, r.seen, s); }
      if t in r.seen { SeenBelowClock(r.memory, r.seen, t); }
    }
  }

  lemma {:induction false} WriteSettles(r: Replica, actor: string, key: string, name: Option<string>, outcome: WriteOutcome)
    requires Coherent(r) && OneEach(r.seen)
    requires name.Some? ==> ValidateChatName(name.value) == Ok(name.value)
    ensures Settled(r, Write(r, actor, key, name, outcome), Written(r.memory, actor, key, name))
    ensures forall x :: x in Written(r.memory, actor, key, name) ==>
      x.version.actor == actor && x.version.counter == r.memory.clock + 1
    ensures !ValidActor(actor) ==> Write(r, actor, key, name, outcome) == r
  {
    var batch := Written(r.memory, actor, key, name);
    if batch == {} {
      assert r.seen + batch == r.seen && r.stored + batch == r.stored;
    } else {
      var x := NameRecord(key, NameVersion(r.memory.clock + 1, actor), name);
      assert batch == {x} == RecordSet([x]);
      if ValidActor(actor) {
        assert ValidRecord(x);
        FreshVersion(r, x);
        MergeSettles(r, [x], true, outcome);
      } else {
        SingleRecord(r.memory.(initialSyncComplete := r.memory.initialSyncComplete || true), x);
      }
    }
  }

  // ------------------------------------------------------------- the whole account

  /** Records a device may absorb: off the wire, or one fresh write of its own. */
  ghost predicate Absorbable(w: World, d: string, batch: set<NameRecord>)
    requires d in w.replicas
  {
    || batch <= w.wire
    || exists x :: batch == {x} && ValidRecord(x) && x.version.actor == d
        && x.version.counter == w.replicas[d].memory.clock + 1
  }

  ghost function With(w: World, d: string, r: Replica): (w': World) {
    w.(replicas := w.replicas[d := r])
  }

  lemma KnownAfterSettle(w: World, d: string, r': Replica, batch: set<NameRecord>, x: NameRecord)
    requires d in w.replicas && Settled(w.replicas[d], r', batch) && Known(With(w, d, r'), x)
    ensures Known(w, x) || x in batch
  {
  }

  /** A fresh write shares its version with nothing known, except what its own
      disk write has just replaced. */
  lemma {:induction false} FreshWriteIsUnique(w: World, d: string, r': Replica, x: NameRecord, y: NameRecord)
    requires Inv(w) && d in w.replicas && Settled(w.replicas[d], r', {x})
    requires x.version.actor == d && x.version.counter == w.replicas[d].memory.clock + 1
    requires Known(With(w, d, r'), x) && Known(With(w, d, r'), y) && x.version == y.version
    requires r'.stored == w.replicas[d].seen + {x}
    ensures x == y
  {
    var r := w.replicas[d];
    if Published(w, y) {
      SeenBelowClock(r.memory, r.seen, y);
    } else if y != x {
      if y in r.seen {
        SeenBelowClock(r.memory, r.seen, y);
      } else {
        OthersDoNotHold(w, d, y);
      }
    }
  }

  /** An unpublished record is on no disk but its writer's. */
  lemma OthersDoNotHold(w: World, d: string, y: NameRecord)
    requires Inv(w) && y.version.actor == d && !Published(w, y)
    ensures forall e :: e in w.replicas && e != d ==> y !in w.replicas[e].stored
  {
    forall e | e in w.replicas && e != d ensures y !in w.replicas[e].stored {
      assert Ahead(w, e, y);
    }
  }

  lemma {:induction false} SettleKeepsUnique(w: World, d: string, r': Replica, batch: set<NameRecord>)
    requires Inv(w) && d in w.replicas && Settled(w.replicas[d], r', batch) && Absorbable(w, d, batch)
    ensures Unique(With(w, d, r'))
  {
    var w' := With(w, d, r');
    forall x, y | Known(w', x) && Known(w', y) && SameVersion(x, y) ensures x == y {
      SettleKeepsPairUnique(w, d, r', batch, x, y);
    }
  }

  lemma SettleKeepsPairUnique(w: World, d: string, r': Replica, batch: set<NameRecord>, x: NameRecord, y: NameRecord)
    requires Inv(w) && d in w.replicas && Settled(w.replicas[d], r', batch) && Absorbable(w, d, batch)
    requires Known(With(w, d, r'), x) && Known(With(w, d, r'), y) && SameVersion(x, y)
    ensures x == y
  {
    var r := w.replicas[d];
    KnownAfterSettle(w, d, r', batch, x);
    KnownAfterSettle(w, d, r', batch, y);
    if !(batch <= w.wire) {
      if x in batch && x !in r.seen { OwnBatch(w, d, r', x, y); }
      if y in batch && y !in r.seen { OwnBatch(w, d, r', y, x); }
    }
  }

  lemma SettleKeepsValid(w: World, d: string, r': Replica, batch: set<NameRecord>)
    requires Inv(w) && d in w.replicas && Settled(w.replicas[d], r', batch) && Absorbable(w, d, batch)
    ensures AllKnownValid(With(w, d, r'))
  {
    forall x | Known(With(w, d, r'), x) ensures ValidRecord(x) {
      KnownAfterSettle(w, d, r', batch, x);
    }
  }

  lemma OwnBatch(w: World, d: string, r': Replica, x: NameRecord, y: NameRecord)
    requires Inv(w) && d in w.replicas && Settled(w.replicas[d], r', {x}) && x !in w.replicas[d].seen
    requires x.version.actor == d && x.version.counter == w.replicas[d].memory.clock + 1
    requires Known(With(w, d, r'), x) && Known(With(w, d, r'), y) && SameVersion(x, y)
    ensures x == y
  {
    if r'.stored == w.replicas[d].seen + {x} {
      FreshWriteIsUnique(w, d, r', x, y);
    } else {
      // Nothing was written, so x is known only if it was known before.
      if x in r'.seen {
        SeenBelowClock(r'.memory, r'.seen, x);
      } else {
        assert x in r'.stored ==> x in r'.stored - r'.seen;
        KnownAfterSettle(w, d, r', {x}, y);
      }
    }
  }

  lemma {:induction false} SettleKeepsWriters(w: World, d: string, r': Replica, batch: set<NameRecord>)
    requires Inv(w) && d in w.replicas && Settled(w.replicas[d], r', batch) && Absorbable(w, d, batch)
    ensures WritersRemember(With(w, d, r'))
  {
    var r, w' := w.replicas[d], With(w, d, r');
    forall x | Published(w', x)
      ensures x.version.actor in w'.replicas && x in w'.replicas[x.version.actor].seen
    {
      if !Published(w, x) {
        assert x in r'.seen && x in batch;
      }
    }
  }

  lemma {:induction false} SettleKeepsDisks(w: World, d: string, r': Replica, batch: set<NameRecord>)
    requires Inv(w) && d in w.replicas && Settled(w.replicas[d], r', batch) && Absorbable(w, d, batch)
    ensures DisksAhead(With(w, d, r')) && AllCoherent(With(w, d, r'))
  {
    var r, w' := w.replicas[d], With(w, d, r');
    forall e, x | e in w'.replicas ensures Ahead(w', e, x) {
      assert Ahead(w, e, x);
      if e == d && x in r'.stored && x !in r'.seen {
        assert x in r'.stored - r'.seen;
      }
    }
  }

  lemma {:induction false} SettleKeepsInv(w: World, d: string, r': Replica, batch: set<NameRecord>)
    requires Inv(w) && d in w.replicas && Settled(w.replicas[d], r', batch) && Absorbable(w, d, batch)
    ensures Inv(With(w, d, r'))
  {
    SettleKeepsUnique(w, d, r', batch);
    SettleKeepsValid(w, d, r', batch);
    SettleKeepsWriters(w, d, r', batch);
    SettleKeepsDisks(w, d, r', batch);
  }

  /** What is known has one record for each key and version. */
  lemma {:induction false} KnownHaveOneEach(w: World, records: set<NameRecord>)
    requires Unique(w) && AllKnownValid(w) && forall r :: r in records ==> Known(w, r)
    ensures OneEach(records) && AllValid(records)
  {
    forall r, s | r in records && s in records && SameSlot(r, s) ensures r == s {
      assert SameVersion(r, s);
    }
  }

  lemma {:induction false} WriteKeepsInv(w: World, d: string, key: string, name: Option<string>, outcome: WriteOutcome)
    requires Inv(w) && d in w.replicas
    requires name.Some? ==> ValidateChatName(name.value) == Ok(name.value)
    ensures Inv(With(w, d, Write(w.replicas[d], d, key, name, outcome)))
  {
    var r := w.replicas[d];
    SeenHaveOneEach(w, d);
    WriteSettles(r, d, key, name, outcome);
    if !ValidActor(d) {
      assert With(w, d, r) == w;
    } else {
      WriteIsAbsorbable(w, d, key, name);
      SettleKeepsInv(w, d, Write(r, d, key, name, outcome), Written(r.memory, d, key, name));
    }
  }

  lemma SeenHaveOneEach(w: World, d: string)
    requires Unique(w) && AllKnownValid(w) && d in w.replicas
    ensures OneEach(w.replicas[d].seen)
  {
    KnownHaveOneEach(w, w.replicas[d].seen);
  }

  lemma WriteIsAbsorbable(w: World, d: string, key: string, name: Option<string>)
    requires d in w.replicas && ValidActor(d)
    requires name.Some? ==> ValidateChatName(name.value) == Ok(name.value)
    ensures Absorbable(w, d, Written(w.replicas[d].memory, d, key, name))
  {
    var batch := Written(w.replicas[d].memory, d, key, name);
    if batch != {} {
      var x := NameRecord(key, NameVersion(w.replicas[d].memory.clock + 1, d), name);
      assert batch == {x} && ValidRecord(x);
    }
  }

  /** The same-version conflict is never met: a page off the wire is refused by
      nothing but the store. */
  lemma {:induction false} PagesNeverConflict(w: World, d: string, records: seq<NameRecord>, initial: bool, outcome: WriteOutcome)
    requires Inv(w) && d in w.replicas && RecordSet(records) <= w.wire
    ensures Merge(w.replicas[d].memory, records, initial, outcome).result != Err(InvalidInput)
    ensures outcome == Saved ==> Merge(w.replicas[d].memory, records, initial, outcome).result.Ok?
    ensures Inv(With(w, d, Settle(w.replicas[d], Merge(w.replicas[d].memory, records, initial, outcome), RecordSet(records))))
  {
    var r := w.replicas[d];
    KnownHaveOneEach(w, r.seen + RecordSet(records));
    MergeSettles(r, records, initial, outcome);
    SettleKeepsInv(w, d, Settle(r, Merge(r.memory, records, initial, outcome), RecordSet(records)), RecordSet(records));
  }

  /** A restart always finds a readable register. */
  lemma {:induction false} RestartKeepsInv(w: World, d: string)
    requires Inv(w) && d in w.replicas
    ensures Opened(w.replicas[d].disk).Ok?
    ensures Inv(With(w, d, Reopen(w.replicas[d])))
  {
    var r, r' := w.replicas[d], Reopen(w.replicas[d]);
    var w' := With(w, d, r');
    assert Coherent(r') by {
      if r.disk == None { assert Consistent(EMPTY); }
    }
    forall x | Known(w', x) ensures Known(w, x) {
    }
    forall x | Published(w', x)
      ensures x.version.actor in w'.replicas && x in w'.replicas[x.version.actor].seen
    {
      if !Published(w, x) {
        assert Ahead(w, d, x);
      }
    }
    forall e, x | e in w'.replicas ensures Ahead(w', e, x) {
      assert Ahead(w, e, x);
    }
  }

  lemma {:induction false} SendKeepsInv(w: World, d: string, after: Option<string>)
    requires Inv(w) && d in w.replicas
    ensures Inv(w.(wire := w.wire + RecordSet(Page(w.replicas[d].memory.entries, after))))
  {
    var r := w.replicas[d];
    var page := Page(r.memory.entries, after);
    var w' := w.(wire := w.wire + RecordSet(page));
    forall x | x in page ensures x in r.seen {
      var i :| 0 <= i < |page| && page[i] == x;
    }
    forall x | Known(w', x) ensures Known(w, x) {
    }
    forall x | Published(w', x) ensures Published(w, x) {
    }
    forall e, x | e in w'.replicas ensures Ahead(w', e, x) {
      assert Ahead(w, e, x);
    }
  }

  lemma {:induction false} StepKeepsInv(w: World, e: Event)
    requires Inv(w) && Enabled(w, e)
    ensures Inv(Step(w, e))
  {
    match e
    case Naming(d, key, value, outcome) =>
      if ValidateChatName(value).Ok? {
        AcceptedNamesAreStable(value);
        WriteKeepsInv(w, d, key, Some(ValidateChatName(value).value), outcome);
      }
    case Resetting(d, key, outcome) => WriteKeepsInv(w, d, key, None, outcome);
    case Sending(d, after) => SendKeepsInv(w, d, after);
    case Receiving(d, records, initial, outcome) => PagesNeverConflict(w, d, records, initial, outcome);
    case Restarting(d) => RestartKeepsInv(w, d);
  }

  lemma {:induction false} RunKeepsInv(w: World, events: seq<Event>)
    requires Inv(w) && Admissible(w, events)
    ensures Inv(Run(w, events))
    decreases events
  {
    if events != [] {
      StepKeepsInv(w, events[0]);
      RunKeepsInv(Step(w, events[0]), events[1..]);
    }
  }

  lemma BootIsSound(names: set<string>)
    ensures Inv(Boot(names))
  {
  }

  // ------------------------------------------------------------- what a user relies on

  /** Over every run: no two different records share a version; a page is never
      refused for a conflict; disks always reopen; and an acknowledged write is
      what the device reads. */
  lemma {:induction false} VersionsAreGloballyUnique(names: set<string>, events: seq<Event>)
    requires Admissible(Boot(names), events)
    ensures var w := Run(Boot(names), events);
      && (forall r, s :: Known(w, r) && Known(w, s) && SameVersion(r, s) ==> r == s)
      && (forall d :: d in w.replicas ==> Opened(w.replicas[d].disk).Ok?)
      && (forall d, records, initial, outcome :: d in w.replicas && RecordSet(records) <= w.wire ==>
            Merge(w.replicas[d].memory, records, initial, outcome).result != Err(InvalidInput))
      && (forall d, key, name, outcome :: d in w.replicas ==>
            var e := Assign(w.replicas[d].memory, d, key, name, outcome);
            e.result.Ok? ==> NameOf(e.memory, key) == name)
  {
    BootIsSound(names);
    RunKeepsInv(Boot(names), events);
    var w := Run(Boot(names), events);
    forall d, records, initial, outcome | d in w.replicas && RecordSet(records) <= w.wire
      ensures Merge(w.replicas[d].memory, records, initial, outcome).result != Err(InvalidInput)
    {
      PagesNeverConflict(w, d, records, initial, outcome);
    }
    forall d, key, name, outcome | d in w.replicas
      ensures Assign(w.replicas[d].memory, d, key, name, outcome).result.Ok? ==>
        NameOf(Assign(w.replicas[d].memory, d, key, name, outcome).memory, key) == name
    {
      AssignedNameIsRead(w.replicas[d].memory, d, key, name, outcome);
    }
  }

  /** Over every run: devices that absorbed the same records, by whatever path,
      hold the same names and the same clock. */
  lemma {:induction false} DevicesConverge(names: set<string>, events: seq<Event>, a: string, b: string)
    requires Admissible(Boot(names), events)
    requires var w := Run(Boot(names), events);
      a in w.replicas && b in w.replicas && w.replicas[a].seen == w.replicas[b].seen
    ensures var w := Run(Boot(names), events);
      && w.replicas[a].memory.entries == w.replicas[b].memory.entries
      && w.replicas[a].memory.clock == w.replicas[b].memory.clock
  {
    BootIsSound(names);
    RunKeepsInv(Boot(names), events);
    var w := Run(Boot(names), events);
    KnownHaveOneEach(w, w.replicas[a].seen);
    JoinIsUnique(w.replicas[a].memory, w.replicas[b].memory, w.replicas[a].seen);
  }
}
