/** The register of one device: what a batch, a rename and a page do to it.
    Source: mosh-core/src/chat_names/mod.rs. */
module ChatNamesRegister {
  import opened Wrappers
  import opened Primitives
  import opened Order
  import opened Utf8
  import opened ChatNamesTypes

  datatype Register = Register(clock: u64, initialSyncComplete: bool, entries: map<string, NameRecord>)

  const EMPTY: Register := Register(0, false, map[])

  /** Memory after an operation, what reached the disk, and the answer. */
  datatype Effect = Effect(memory: Register, written: Option<Register>, result: Result<bool, NameError>)

  /** One record: refused if invalid or at odds with the entry of the same
      version, taken if the key is new or the version newer. */
  function Absorb(reg: Register, r: NameRecord): (next: Result<Register, NameError>) {
    if !ValidRecord(r) then Err(InvalidInput)
    else if r.key in reg.entries && reg.entries[r.key].version == r.version && reg.entries[r.key] != r
    then Err(InvalidInput)
    else if r.key !in reg.entries || Older(reg.entries[r.key].version, r.version)
    then Ok(reg.(clock := Max(reg.clock, r.version.counter), entries := reg.entries[r.key := r]))
    else Ok(reg)
  }

  /** A batch in order; the first refusal refuses the batch. */
  function AbsorbAll(reg: Register, records: seq<NameRecord>): (next: Result<Register, NameError>) {
    if records == [] then Ok(reg)
    else
      var before := AbsorbAll(reg, records[..|records| - 1]);
      if before.Err? then before else Absorb(before.value, records[|records| - 1])
  }

  function Persist(memory: Register, next: Register, outcome: WriteOutcome): (e: Effect) {
    if next == memory then Effect(memory, None, Ok(false))
    else
      match outcome
      case Saved => Effect(next, Some(next), Ok(true))
      case Refused => Effect(memory, None, Err(Storage))
      case RefusedButSaved => Effect(memory, Some(next), Err(Storage))
  }

  /** Merge: all of the batch or nothing, and nothing before it is on disk. */
  function Merge(memory: Register, records: seq<NameRecord>, initial: bool, outcome: WriteOutcome): (e: Effect) {
    match AbsorbAll(memory.(initialSyncComplete := memory.initialSyncComplete || initial), records)
    case Err(error) => Effect(memory, None, Err(error))
    case Ok(next) => Persist(memory, next, outcome)
  }

  function NameOf(reg: Register, key: string): (name: Option<string>) {
    if key in reg.entries then reg.entries[key].name else None
  }

  function Assign(memory: Register, actor: string, key: string, name: Option<string>, outcome: WriteOutcome): (e: Effect) {
    if !ValidKey(key) then Effect(memory, None, Err(InvalidInput))
    else if NameOf(memory, key) == name then Effect(memory, None, Ok(false))
    else if memory.clock + 1 == U64_LIMIT then Effect(memory, None, Err(InvalidInput))
    else Merge(memory, [NameRecord(key, NameVersion(memory.clock + 1, actor), name)], true, outcome)
  }

  function Rename(memory: Register, actor: string, key: string, value: string, outcome: WriteOutcome): (e: Effect) {
    match ValidateChatName(value)
    case Err(error) => Effect(memory, None, Err(error))
    case Ok(name) => Assign(memory, actor, key, Some(name), outcome)
  }

  /** What opening makes of the stored row. */
  function Opened(row: Option<Text<Register>>): (r: Result<Register, NameError>) {
    match row
    case None => Ok(EMPTY)
    case Some(Garbled) => Err(Storage)
    case Some(Encoded(reg)) => if Consistent(reg) then Ok(reg) else Err(InvalidInput)
  }

  /** Every entry is valid, filed under its own key, and not ahead of the clock. */
  predicate Consistent(reg: Register) {
    forall k {:trigger Filed(reg.entries, reg.clock, k)} :: k in reg.entries ==> Filed(reg.entries, reg.clock, k)
  }

  predicate Filed(entries: map<string, NameRecord>, clock: nat, k: string)
    requires k in entries
  {
    ValidRecord(entries[k]) && entries[k].key == k && entries[k].version.counter <= clock
  }

  const PAGE: nat := 16

  ghost function Past(keys: set<string>, after: Option<string>): (r: set<string>) {
    set k | k in keys && (after.None? || Below(after.value, k))
  }

  ghost function InOrder(entries: map<string, NameRecord>, keys: seq<string>): (r: seq<NameRecord>)
    requires forall k :: k in keys ==> k in entries
    ensures |r| == |keys|
    ensures forall i :: 0 <= i < |r| ==> keys[i] in entries && r[i] == entries[keys[i]]
  {
    seq(|keys|, i requires 0 <= i < |keys| => assert keys[i] in keys; entries[keys[i]])
  }

  /** At most sixteen entries past `after`, in key order. */
  ghost function Page(entries: map<string, NameRecord>, after: Option<string>): (r: seq<NameRecord>) {
    var keys := Sorted(Past(entries.Keys, after));
    assert forall k :: k in keys[..Min(|keys|, PAGE)] ==> k in keys;
    InOrder(entries, keys[..Min(|keys|, PAGE)])
  }

  // ------------------------------------------------------------- laws of one register

  /** No entry goes back: each key keeps its entry or takes a newer one. */
  ghost predicate Advances(before: Register, after: Register) {
    forall k :: k in before.entries ==>
      k in after.entries && (after.entries[k] == before.entries[k] || Older(before.entries[k].version, after.entries[k].version))
  }

  lemma {:induction false} AbsorbAdvances(before: Register, reg: Register, r: NameRecord)
    requires Advances(before, reg) && Absorb(reg, r).Ok?
    ensures Advances(before, Absorb(reg, r).value)
    ensures Absorb(reg, r).value != reg ==> Absorb(reg, r).value.entries != before.entries
  {
    var next := Absorb(reg, r).value;
    if r.key in before.entries {
      OlderIsTotalOrder(before.entries[r.key].version, reg.entries[r.key].version, r.version);
      OlderIsTotalOrder(before.entries[r.key].version, before.entries[r.key].version, before.entries[r.key].version);
      OlderIsTotalOrder(r.version, r.version, r.version);
    }
  }

  lemma {:induction false} AbsorbKeepsConsistent(reg: Register, r: NameRecord)
    requires Consistent(reg) && Absorb(reg, r).Ok?
    ensures Consistent(Absorb(reg, r).value)
  {
    var next := Absorb(reg, r).value;
    forall k | k in next.entries ensures Filed(next.entries, next.clock, k) {
      assert k in reg.entries ==> Filed(reg.entries, reg.clock, k);
    }
  }

  lemma {:induction false} AbsorbAllKeepsConsistent(reg: Register, records: seq<NameRecord>)
    requires Consistent(reg) && AbsorbAll(reg, records).Ok?
    ensures Consistent(AbsorbAll(reg, records).value)
  {
    if records != [] {
      AbsorbAllKeepsConsistent(reg, records[..|records| - 1]);
      AbsorbKeepsConsistent(AbsorbAll(reg, records[..|records| - 1]).value, records[|records| - 1]);
    }
  }

  /** An acknowledged rename is what `name` reads from then on, and it was on
      disk first; whatever was refused left memory alone. */
  lemma {:induction false} AssignedNameIsRead(reg: Register, actor: string, key: string, name: Option<string>, outcome: WriteOutcome)
    requires Consistent(reg)
    ensures var e := Assign(reg, actor, key, name, outcome);
      && (e.result.Ok? ==> NameOf(e.memory, key) == name)
      && (e.result == Ok(true) ==> e.written == Some(e.memory) && forall k :: k != key ==> NameOf(e.memory, k) == NameOf(reg, k))
      && (e.result != Ok(true) ==> e.memory == reg)
  {
    var e := Assign(reg, actor, key, name, outcome);
    if key in reg.entries {
      assert Filed(reg.entries, reg.clock, key);
    }
    if e.result == Ok(true) {
      var r := NameRecord(key, NameVersion(reg.clock + 1, actor), name);
      var start := reg.(initialSyncComplete := reg.initialSyncComplete || true);
      SingleRecord(start, r);
    }
  }

  lemma {:induction false} AbsorbingKeepsTheFlag(reg: Register, records: seq<NameRecord>)
    ensures AbsorbAll(reg, records).Ok? ==> AbsorbAll(reg, records).value.initialSyncComplete == reg.initialSyncComplete
    ensures AbsorbAll(reg, records).Err? ==> AbsorbAll(reg, records) == Err(InvalidInput)
  {
    if records != [] {
      AbsorbingKeepsTheFlag(reg, records[..|records| - 1]);
    }
  }

  /** A merge answers whether anything changed, the first full sync included; what it
      changed was on disk first, and whatever was refused left memory alone. */
  lemma {:induction false} MergeReports(memory: Register, records: seq<NameRecord>, initial: bool, outcome: WriteOutcome)
    ensures var e := Merge(memory, records, initial, outcome);
      && (e.result == Ok(true) ==> e.memory != memory && e.written == Some(e.memory) && outcome == Saved)
      && (e.result != Ok(true) ==> e.memory == memory)
      && (e.result == Ok(false) ==> e.written == None)
      && (e.result.Ok? ==> (e.memory.initialSyncComplete <==> memory.initialSyncComplete || initial))
      && (e.result == Err(Storage) ==> outcome != Saved && (e.written.None? <==> outcome == Refused))
      && (e.result == Err(InvalidInput) <==> AbsorbAll(memory, records).Err?)
  {
    var start := memory.(initialSyncComplete := memory.initialSyncComplete || initial);
    AbsorbingKeepsTheFlag(start, records);
    FlagDoesNotMatter(memory, records, start.initialSyncComplete);
  }

  lemma {:induction false} FlagDoesNotMatter(reg: Register, records: seq<NameRecord>, flag: bool)
    ensures AbsorbAll(reg.(initialSyncComplete := flag), records)
         == if AbsorbAll(reg, records).Err? then AbsorbAll(reg, records)
            else Ok(AbsorbAll(reg, records).value.(initialSyncComplete := flag))
  {
    if records != [] {
      FlagDoesNotMatter(reg, records[..|records| - 1], flag);
    }
  }

  lemma SingleRecord(reg: Register, r: NameRecord)
    ensures AbsorbAll(reg, [r]) == Absorb(reg, r)
  {
    assert [r][..0] == [];
    assert AbsorbAll(reg, []) == Ok(reg);
  }

  /** What was typed holds this proper name. */
  ghost predicate Typed(value: string, name: string) {
    ProperName(name) && Spells(value, name)
  }

  /** What is accepted for a rename is what is read afterwards, to the letter. */
  lemma {:induction false} RenamedReadsAsTyped(reg: Register, actor: string, key: string, value: string, name: string, outcome: WriteOutcome)
    requires Consistent(reg) && Typed(value, name)
    ensures var e := Rename(reg, actor, key, value, outcome);
      && (e.result.Ok? ==> NameOf(e.memory, key) == Some(name))
      && (e.result == Ok(true) ==> e.written == Some(e.memory))
      && (e.result.Err? ==> e.memory == reg)
  {
    AcceptedExactly(value, name);
    AssignedNameIsRead(reg, actor, key, Some(name), outcome);
  }

  lemma {:induction false} ValidatedRenameFails(reg: Register, actor: string, key: string, value: string, outcome: WriteOutcome)
    requires Consistent(reg)
    ensures Rename(reg, actor, key, value, outcome).result == Err(InvalidInput) <==>
      || ValidateChatName(value).Err?
      || !ValidKey(key)
      || (NameOf(reg, key) != Some(ValidateChatName(value).value)
          && (reg.clock + 1 == U64_LIMIT || !ValidActor(actor)))
  {
    if key in reg.entries {
      assert Filed(reg.entries, reg.clock, key);
    }
    AcceptedExactly(value, "");
    if ValidateChatName(value).Ok? {
      AcceptedNamesAreStable(value);
      var name := Some(ValidateChatName(value).value);
      if ValidKey(key) && NameOf(reg, key) != name && reg.clock + 1 < U64_LIMIT {
        var r := NameRecord(key, NameVersion(reg.clock + 1, actor), name);
        SingleRecord(reg.(initialSyncComplete := reg.initialSyncComplete || true), r);
      }
    }
  }

  /** A rename is refused as invalid exactly when what was typed is no proper name,
      the key is none, or a change is due and the clock is exhausted or the writer is
      no valid one. */
  lemma {:induction false} RenameOnlyFailsForCause(reg: Register, actor: string, key: string, value: string, outcome: WriteOutcome)
    requires Consistent(reg)
    ensures Rename(reg, actor, key, value, outcome).result == Err(InvalidInput) <==>
      || !ValidKey(key)
      || (forall name :: !Typed(value, name))
      || (exists name :: Typed(value, name) && NameOf(reg, key) != Some(name)
                         && (reg.clock + 1 == U64_LIMIT || !ValidActor(actor)))
  {
    ValidatedRenameFails(reg, actor, key, value, outcome);
    forall name ensures ValidateChatName(value) == Ok(name) <==> Typed(value, name) {
      AcceptedExactly(value, name);
    }
    if ValidateChatName(value).Ok? {
      assert Typed(value, ValidateChatName(value).value);
    }
  }

  /** Two writers at the same count: every replica keeps the record of the writer
      whose id is greater, byte by byte, whichever came first. */
  lemma TieGoesToTheGreaterWriter(reg: Register, r: NameRecord, other: NameRecord)
    requires ValidRecord(r) && ValidRecord(other) && r.key == other.key && r.key !in reg.entries
    requires r.version.counter == other.version.counter
    requires BytesBelow(Utf8Bytes(r.version.actor), Utf8Bytes(other.version.actor))
    ensures AbsorbAll(reg, [r, other]).Ok? && AbsorbAll(reg, [r, other]).value.entries[r.key] == other
    ensures AbsorbAll(reg, [other, r]).Ok? && AbsorbAll(reg, [other, r]).value.entries[r.key] == other
  {
    OrderOfBytes(r.version.actor, other.version.actor);
    OlderIsTotalOrder(r.version, r.version, other.version);
    assert [r, other][..1] == [r] && [other, r][..1] == [other];
    SingleRecord(reg, r);
    SingleRecord(reg, other);
  }
}
