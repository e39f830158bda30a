/** Durable personal names of one account on one device. Source:
    mosh-core/src/chat_names/mod.rs. */
module ChatNames {
  import opened Wrappers
  import opened Primitives
  import opened ChatNamesTypes
  import Model = ChatNamesRegister

  /** The rows of the store, one register for each account. */
  class NameStore {
    var rows: map<string, Text<Model.Register>>

    constructor ()
      ensures rows == map[]
    {
      rows := map[];
    }

    function Row(user: string): (r: Option<Text<Model.Register>>)
      reads this
    {
      if user in rows then Some(rows[user]) else None
    }

    /** One transaction; the fault decides what a refusal leaves behind. */
    method Put(user: string, reg: Model.Register, fault: WriteOutcome) returns (ok: bool)
      modifies this
      ensures ok == (fault == Saved)
      ensures rows == if fault == Refused then old(rows) else old(rows)[user := Encoded(reg)]
    {
      if fault != Refused {
        rows := rows[user := Encoded(reg)];
      }
      ok := fault == Saved;
    }
  }

  class ChatNames {
    const store: NameStore
    const user: string
    const actor: string
    var register: Model.Register

    constructor (store: NameStore, user: string, actor: string, register: Model.Register)
      ensures this.store == store && this.user == user && this.actor == actor && this.register == register
    {
      this.store, this.user, this.actor, this.register := store, user, actor, register;
    }

    ghost predicate Valid()
      reads this
    {
      Model.Consistent(register)
    }

    static method Open(store: NameStore, user: string, actor: string) returns (r: Result<ChatNames, NameError>)
      ensures r.Err? ==> Model.Opened(store.Row(user)) == Err(r.error)
      ensures r.Ok? ==> fresh(r.value) && r.value.store == store && r.value.user == user && r.value.actor == actor
      ensures r.Ok? ==> r.value.Valid() && Model.Opened(store.Row(user)) == Ok(r.value.register)
    {
      var row := store.Row(user);
      var reg := Model.EMPTY;
      if row.Some? {
        if row.value.Garbled? {
          return Err(Storage);
        }
        reg := row.value.value;
      }
      var unread := reg.entries.Keys;
      while unread != {}
        invariant unread <= reg.entries.Keys
        invariant forall k {:trigger Model.Filed(reg.entries, reg.clock, k)} ::
          k in reg.entries && k !in unread ==> Model.Filed(reg.entries, reg.clock, k)
        decreases |unread|
      {
        var k :| k in unread;
        var entry := reg.entries[k];
        assert Model.Filed(reg.entries, reg.clock, k) <==> ValidRecord(entry) && k == entry.key && entry.version.counter <= reg.clock;
        if !ValidRecord(entry) {
          return Err(InvalidInput);
        }
        if k != entry.key || entry.version.counter > reg.clock {
          return Err(InvalidInput);
        }
        unread := unread - {k};
      }
      var names := new ChatNames(store, user, actor, reg);
      return Ok(names);
    }

    function Name(key: string): (name: Option<string>)
      reads this
    {
      if key in register.entries then register.entries[key].name else None
    }

    method Rename(key: string, value: string, fault: WriteOutcome) returns (r: Result<(), NameError>)
      requires Valid()
      modifies this`register, store
      ensures Valid()
      ensures Performed(old(register), old(store.rows), register, store.rows, r,
                        Model.Rename(old(register), actor, key, value, fault))
    {
      var name := ValidateChatName(value);
      if name.Err? {
        return Err(name.error);
      }
      r := Set(key, Some(name.value), fault);
    }

    method Reset(key: string, fault: WriteOutcome) returns (r: Result<(), NameError>)
      requires Valid()
      modifies this`register, store
      ensures Valid()
      ensures Performed(old(register), old(store.rows), register, store.rows, r,
                        Model.Assign(old(register), actor, key, None, fault))
    {
      r := Set(key, None, fault);
    }

    /** Memory, disk and answer are those of the effect. */
    ghost predicate Performed(
      before: Model.Register, rows: map<string, Text<Model.Register>>,
      after: Model.Register, rows': map<string, Text<Model.Register>>,
      r: Result<(), NameError>, e: Model.Effect)
    {
      && after == e.memory
      && rows' == (if e.written.Some? then rows[user := Encoded(e.written.value)] else rows)
      && (r.Ok? <==> e.result.Ok?) && (r.Err? ==> e.result == Err(r.error))
    }

    method Set(key: string, name: Option<string>, fault: WriteOutcome) returns (r: Result<(), NameError>)
      requires Valid()
      modifies this`register, store
      ensures Valid()
      ensures Performed(old(register), old(store.rows), register, store.rows, r,
                        Model.Assign(old(register), actor, key, name, fault))
    {
      if !ValidKey(key) {
        return Err(InvalidInput);
      }
      if Name(key) == name {
        return Ok(());
      }
      if register.clock + 1 == U64_LIMIT {
        return Err(InvalidInput);
      }
      var counter: u64 := register.clock + 1;
      var merged := Merge([NameRecord(key, NameVersion(counter, actor), name)], true, fault);
      if merged.Err? {
        return Err(merged.error);
      }
      return Ok(());
    }

    /** Applies a batch to a copy, persists the copy, then adopts it. */
    method Merge(records: seq<NameRecord>, initial: bool, fault: WriteOutcome) returns (r: Result<bool, NameError>)
      requires Valid()
      modifies this`register, store
      ensures Valid()
      ensures var e := Model.Merge(old(register), records, initial, fault);
        && register == e.memory && r == e.result
        && store.rows == if e.written.Some? then old(store.rows)[user := Encoded(e.written.value)] else old(store.rows)
    {
      var copy := register.(initialSyncComplete := register.initialSyncComplete || initial);
      var changed := initial && !register.initialSyncComplete;
      var absorbed, moved := AbsorbBatch(copy, records);
      if absorbed.Err? {
        return Err(absorbed.error);
      }
      changed := changed || moved;
      if changed {
        var ok := store.Put(user, absorbed.value, fault);
        if !ok {
          return Err(Storage);
        }
        register := absorbed.value;
      }
      return Ok(changed);
    }

    /** The loop over the batch, on a copy of the register. */
    static method AbsorbBatch(start: Model.Register, records: seq<NameRecord>)
      returns (r: Result<Model.Register, NameError>, moved: bool)
      requires Model.Consistent(start)
      ensures r == Model.AbsorbAll(start, records)
      ensures r.Ok? ==> Model.Consistent(r.value) && r.value.initialSyncComplete == start.initialSyncComplete
      ensures r.Ok? ==> (moved <==> r.value != start)
    {
      var next := start;
      moved := false;
      for i := 0 to |records|
        invariant Model.AbsorbAll(start, records[..i]) == Ok(next)
        invariant Model.Consistent(next) && Model.Advances(start, next)
        invariant next.initialSyncComplete == start.initialSyncComplete
        invariant moved <==> next != start
      {
        var entry := records[i];
        assert records[..i + 1][..i] == records[..i] && records[..i + 1][i] == entry;
        assert Model.AbsorbAll(start, records[..i + 1]) == Model.Absorb(next, entry);
        if !ValidRecord(entry) {
          RefusalIsFinal(start, records, i + 1);
          return Err(InvalidInput), moved;
        }
        if entry.key in next.entries && next.entries[entry.key].version == entry.version && next.entries[entry.key] != entry {
          RefusalIsFinal(start, records, i + 1);
          return Err(InvalidInput), moved;
        }
        Model.AbsorbAdvances(start, next, entry);
        Model.AbsorbKeepsConsistent(next, entry);
        if entry.key !in next.entries || Older(next.entries[entry.key].version, entry.version) {
          OlderIsTotalOrder(entry.version, entry.version, entry.version);
          next := next.(clock := Max(next.clock, entry.version.counter), entries := next.entries[entry.key := entry]);
          moved := true;
        }
      }
      assert records[..|records|] == records;
      r := Ok(next);
    }

    /** Once a batch is refused, the rest of it changes nothing. */
    static lemma {:induction false} RefusalIsFinal(reg: Model.Register, records: seq<NameRecord>, i: nat)
      requires i <= |records| && Model.AbsorbAll(reg, records[..i]).Err?
      ensures Model.AbsorbAll(reg, records) == Err(InvalidInput)
      decreases |records|
    {
      if i == |records| {
        assert records[..i] == records;
        OnlyInvalidInput(reg, records);
      } else {
        var front := records[..|records| - 1];
        assert front[..i] == records[..i];
        RefusalIsFinal(reg, front, i);
      }
    }

    static lemma {:induction false} OnlyInvalidInput(reg: Model.Register, records: seq<NameRecord>)
      ensures Model.AbsorbAll(reg, records).Err? ==> Model.AbsorbAll(reg, records) == Err(InvalidInput)
    {
      if records != [] {
        OnlyInvalidInput(reg, records[..|records| - 1]);
      }
    }

    ghost function Page(after: Option<string>): (r: seq<NameRecord>)
      reads this
    {
      Model.Page(register.entries, after)
    }
  }
}
