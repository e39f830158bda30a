/** Merging is a pointwise maximum: what a register holds depends on which
    records it absorbed, not on their order, grouping or repetition. */
module ChatNamesJoin {
  import opened Wrappers
  import opened ChatNamesTypes
  import opened ChatNamesRegister

  predicate SameSlot(r: NameRecord, s: NameRecord) {
    r.key == s.key && r.version == s.version
  }

  /** A key and a version name one record. */
  ghost predicate OneEach(records: set<NameRecord>) {
    forall r, s {:trigger SameSlot(r, s)} :: r in records && s in records && SameSlot(r, s) ==> r == s
  }

  ghost predicate AllValid(records: set<NameRecord>) {
    forall r {:trigger ValidRecord(r)} :: r in records ==> ValidRecord(r)
  }

  /** The entries are, key by key, the newest of the records. */
  ghost predicate IsJoin(entries: map<string, NameRecord>, records: set<NameRecord>) {
    && (forall k :: k in entries ==> entries[k] in records && entries[k].key == k)
    && (forall r :: r in records ==> r.key in entries && !Older(entries[r.key].version, r.version))
  }

  /** The clock is the highest counter among the entries, or zero. */
  ghost predicate ClockIsHighest(reg: Register) {
    && (forall k :: k in reg.entries ==> reg.entries[k].version.counter <= reg.clock)
    && (reg.clock == 0 || exists k :: k in reg.entries && reg.entries[k].version.counter == reg.clock)
  }

  ghost predicate Joined(reg: Register, records: set<NameRecord>) {
    IsJoin(reg.entries, records) && ClockIsHighest(reg)
  }

  /** The join of a set of records is unique, and so is its clock. */
  lemma {:induction false} JoinIsUnique(a: Register, b: Register, records: set<NameRecord>)
    requires OneEach(records) && Joined(a, records) && Joined(b, records)
    ensures a.entries == b.entries && a.clock == b.clock
  {
    forall k | k in a.entries ensures k in b.entries && a.entries[k] == b.entries[k] {
      assert a.entries[k] in records && b.entries[k] in records;
      assert SameSlot(a.entries[k], b.entries[k]) ==> a.entries[k] == b.entries[k];
      OlderIsTotalOrder(a.entries[k].version, a.entries[k].version, b.entries[k].version);
    }
    forall k | k in b.entries ensures k in a.entries {
      assert b.entries[k] in records;
    }
  }

  lemma {:induction false} AbsorbJoins(reg: Register, r: NameRecord, records: set<NameRecord>)
    requires Joined(reg, records) && OneEach(records + {r}) && ValidRecord(r)
    ensures Absorb(reg, r).Ok? && Joined(Absorb(reg, r).value, records + {r})
    ensures Absorb(reg, r).value.initialSyncComplete == reg.initialSyncComplete
  {
    if r.key in reg.entries {
      var held := reg.entries[r.key];
      assert held in records + {r} && r in records + {r};
      assert SameSlot(held, r) ==> held == r;
      OlderIsTotalOrder(held.version, held.version, r.version);
      var next := Absorb(reg, r).value;
      forall s | s in records + {r}
        ensures s.key in next.entries && !Older(next.entries[s.key].version, s.version)
      {
        if s.key == r.key {
          OlderIsTotalOrder(held.version, r.version, s.version);
          OlderIsTotalOrder(r.version, s.version, s.version);
        }
      }
      AbsorbKeepsHighest(reg, r);
    } else {
      OlderIsTotalOrder(r.version, r.version, r.version);
      AbsorbKeepsHighest(reg, r);
    }
  }

  lemma {:induction false} AbsorbKeepsHighest(reg: Register, r: NameRecord)
    requires ClockIsHighest(reg) && Absorb(reg, r).Ok?
    ensures ClockIsHighest(Absorb(reg, r).value)
  {
    var next := Absorb(reg, r).value;
    if next != reg {
      assert next.entries[r.key] == r;
      if next.clock != r.version.counter {
        var k :| k in reg.entries && reg.entries[k].version.counter == reg.clock;
        assert k != r.key;
        assert next.entries[k].version.counter == next.clock;
      }
    }
  }

  ghost function RecordSet(records: seq<NameRecord>): (r: set<NameRecord>) {
    set x | x in records
  }

  lemma LastRecord(records: seq<NameRecord>, before: set<NameRecord>)
    requires records != []
    ensures var front, last := records[..|records| - 1], records[|records| - 1];
      && RecordSet(records) == RecordSet(front) + {last} && last in RecordSet(records)
      && before + RecordSet(records) == before + RecordSet(front) + {last}
  {
    assert records == records[..|records| - 1] + [records[|records| - 1]];
  }

  lemma {:induction false} AbsorbAllJoins(reg: Register, records: seq<NameRecord>, before: set<NameRecord>)
    requires Joined(reg, before) && OneEach(before + RecordSet(records)) && AllValid(RecordSet(records))
    ensures AbsorbAll(reg, records).Ok?
    ensures Joined(AbsorbAll(reg, records).value, before + RecordSet(records))
    ensures AbsorbAll(reg, records).value.initialSyncComplete == reg.initialSyncComplete
  {
    if records == [] {
      assert before + RecordSet(records) == before;
    } else {
      var front, last := records[..|records| - 1], records[|records| - 1];
      LastRecord(records, before);
      AbsorbAllJoins(reg, front, before);
      assert ValidRecord(last);
      AbsorbJoins(AbsorbAll(reg, front).value, last, before + RecordSet(front));
    }
  }

  /** A history of batches, merged one after another into an empty register. */
  ghost function MergeBatches(batches: seq<seq<NameRecord>>): (r: Result<Register, NameError>) {
    if batches == [] then Ok(EMPTY)
    else
      var before := MergeBatches(batches[..|batches| - 1]);
      if before.Err? then before else AbsorbAll(before.value, batches[|batches| - 1])
  }

  ghost function AllRecords(batches: seq<seq<NameRecord>>): (r: set<NameRecord>) {
    if batches == [] then {} else AllRecords(batches[..|batches| - 1]) + RecordSet(batches[|batches| - 1])
  }

  lemma {:induction false} BatchesJoin(batches: seq<seq<NameRecord>>)
    requires OneEach(AllRecords(batches)) && AllValid(AllRecords(batches))
    ensures MergeBatches(batches).Ok? && Joined(MergeBatches(batches).value, AllRecords(batches))
  {
    if batches != [] {
      var front, last := batches[..|batches| - 1], batches[|batches| - 1];
      BatchesJoin(front);
      AbsorbAllJoins(MergeBatches(front).value, last, AllRecords(front));
    }
  }

  /** Convergence: replicas that absorbed the same records, in any order, batching
      and repetition, hold the same entries and the same clock. */
  lemma {:induction false} SameRecordsConverge(a: seq<seq<NameRecord>>, b: seq<seq<NameRecord>>)
    requires AllRecords(a) == AllRecords(b) && OneEach(AllRecords(a)) && AllValid(AllRecords(a))
    ensures MergeBatches(a).Ok? && MergeBatches(b).Ok?
    ensures MergeBatches(a).value.entries == MergeBatches(b).value.entries
    ensures MergeBatches(a).value.clock == MergeBatches(b).value.clock
  {
    BatchesJoin(a);
    BatchesJoin(b);
    JoinIsUnique(MergeBatches(a).value, MergeBatches(b).value, AllRecords(a));
  }

  // ------------------------------------------------------------- the algebra of merge

  ghost function Newer(a: NameRecord, b: NameRecord): (r: NameRecord) {
    if Older(a.version, b.version) then b else a
  }

  /** Key by key, the newer entry. */
  ghost function Maximum(a: map<string, NameRecord>, b: map<string, NameRecord>): (m: map<string, NameRecord>) {
    map k | k in a.Keys + b.Keys :: if k !in b then a[k] else if k !in a then b[k] else Newer(a[k], b[k])
  }

  ghost predicate KeyedAlike(a: map<string, NameRecord>, b: map<string, NameRecord>) {
    forall k :: k in a && k in b && a[k].version == b[k].version ==> a[k] == b[k]
  }

  lemma NewerIsSemilattice(a: NameRecord, b: NameRecord, c: NameRecord)
    ensures (a.version == b.version ==> a == b) ==> Newer(a, b) == Newer(b, a)
    ensures (a.version == b.version ==> a == b) && (b.version == c.version ==> b == c) && (a.version == c.version ==> a == c)
            ==> Newer(Newer(a, b), c) == Newer(a, Newer(b, c))
  {
    OlderIsTotalOrder(a.version, b.version, c.version);
    OlderIsTotalOrder(b.version, a.version, c.version);
    OlderIsTotalOrder(b.version, c.version, a.version);
    OlderIsTotalOrder(c.version, b.version, a.version);
  }

  lemma {:induction false} MaximumIsIdempotent(a: map<string, NameRecord>)
    ensures Maximum(a, a) == a
  {
  }

  lemma {:induction false} MaximumIsCommutative(a: map<string, NameRecord>, b: map<string, NameRecord>)
    requires KeyedAlike(a, b)
    ensures Maximum(a, b) == Maximum(b, a)
  {
    forall k | k in a && k in b ensures Newer(a[k], b[k]) == Newer(b[k], a[k]) {
      NewerIsSemilattice(a[k], b[k], b[k]);
    }
  }

  lemma {:induction false} MaximumIsAssociative(
    a: map<string, NameRecord>, b: map<string, NameRecord>, c: map<string, NameRecord>)
    requires KeyedAlike(a, b) && KeyedAlike(b, c) && KeyedAlike(a, c)
    ensures Maximum(Maximum(a, b), c) == Maximum(a, Maximum(b, c))
  {
    forall k | k in a && k in b && k in c
      ensures Newer(Newer(a[k], b[k]), c[k]) == Newer(a[k], Newer(b[k], c[k]))
    {
      NewerIsSemilattice(a[k], b[k], c[k]);
    }
  }

  /** Entries filed under their own keys, all valid: what a device sends. */
  ghost predicate Proper(entries: map<string, NameRecord>) {
    (forall k :: k in entries ==> entries[k].key == k) && AllValid(entries.Values)
  }

  /** Merging another register's entries, listed in any order, is the maximum. */
  lemma {:induction false} MergeIsMaximum(reg: Register, other: map<string, NameRecord>, records: seq<NameRecord>)
    requires Consistent(reg) && Proper(other) && KeyedAlike(reg.entries, other)
    requires RecordSet(records) == other.Values
    ensures AbsorbAll(reg, records).Ok?
    ensures AbsorbAll(reg, records).value.entries == Maximum(reg.entries, other)
  {
    MergePart(reg, other, records);
    forall k | k in other ensures other[k] in records {
      assert other[k] in other.Values;
    }
    assert Listed(other, records) == other;
  }

  ghost function Listed(other: map<string, NameRecord>, records: seq<NameRecord>): (m: map<string, NameRecord>) {
    map k | k in other && other[k] in records :: other[k]
  }

  lemma {:induction false} MergePart(reg: Register, other: map<string, NameRecord>, records: seq<NameRecord>)
    requires Consistent(reg) && Proper(other) && KeyedAlike(reg.entries, other)
    requires RecordSet(records) <= other.Values
    ensures AbsorbAll(reg, records).Ok?
    ensures AbsorbAll(reg, records).value.entries == Maximum(reg.entries, Listed(other, records))
  {
    if records == [] {
      assert Listed(other, records) == map[];
      assert Maximum(reg.entries, map[]) == reg.entries;
    } else {
      var front, last := records[..|records| - 1], records[|records| - 1];
      assert records == front + [last];
      assert RecordSet(records) == RecordSet(front) + {last};
      MergePart(reg, other, front);
      assert last in other.Values && ValidRecord(last);
      assert other[last.key] == last;
      assert Listed(other, records) == Listed(other, front)[last.key := last];
      AbsorbIsMaximum(reg.entries, AbsorbAll(reg, front).value, Listed(other, front), last);
    }
  }

  lemma {:induction false} AbsorbIsMaximum(
    a: map<string, NameRecord>, mid: Register, part: map<string, NameRecord>, r: NameRecord)
    requires mid.entries == Maximum(a, part) && ValidRecord(r)
    requires r.key in a && a[r.key].version == r.version ==> a[r.key] == r
    requires r.key in part ==> part[r.key] == r
    ensures Absorb(mid, r).Ok?
    ensures Absorb(mid, r).value.entries == Maximum(a, part[r.key := r])
  {
    if r.key in a {
      OlderIsTotalOrder(a[r.key].version, a[r.key].version, r.version);
    }
    OlderIsTotalOrder(r.version, r.version, r.version);
  }
}
