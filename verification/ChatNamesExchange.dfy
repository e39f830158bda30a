/** Two devices that pull each other's pages agree. Source: `page` and `merge` in
    mosh-core/src/chat_names/mod.rs, exchanged as in
    mosh-core/src/device_link/runtime/names.rs. */
module ChatNamesExchange {
  import opened Wrappers
  import opened Primitives
  import opened ChatNamesTypes
  import opened ChatNamesRegister
  import opened ChatNamesJoin
  import opened ChatNamesPaging
  import opened ChatNamesNetwork

  /** Device a asks b for its pages, one after another, and saves each; the last one
      completes the first sync. */
  ghost function PullEvents(entries: map<string, NameRecord>, after: Option<string>, a: string, b: string): (events: seq<Event>)
    requires Proper(entries)
    decreases |Past(entries.Keys, after)|
  {
    var page := Page(entries, after);
    [Sending(b, after), Receiving(a, page, |page| < PAGE, Saved)]
    + if |page| < PAGE then []
      else
        RestIsSmaller(entries, after);
        PullEvents(entries, Some(page[PAGE - 1].key), a, b)
  }

  // ---------- the sync flag does not matter ----------

  lemma {:induction false} FlagIsCarried(reg: Register, flag: bool, records: seq<NameRecord>)
    ensures var plain, flagged := AbsorbAll(reg, records), AbsorbAll(reg.(initialSyncComplete := flag), records);
      if plain.Err? then flagged.Err? else flagged == Ok(plain.value.(initialSyncComplete := flag))
  {
    if records != [] {
      FlagIsCarried(reg, flag, records[..|records| - 1]);
    }
  }

  lemma {:induction false} FlagIsCarriedOver(reg: Register, flag: bool, pages: seq<seq<NameRecord>>)
    ensures var plain, flagged := AbsorbPages(reg, pages), AbsorbPages(reg.(initialSyncComplete := flag), pages);
      if plain.Err? then flagged.Err? else flagged == Ok(plain.value.(initialSyncComplete := flag))
    decreases pages
  {
    if pages != [] {
      FlagIsCarried(reg, flag, pages[0]);
      if AbsorbAll(reg, pages[0]).Ok? {
        FlagIsCarriedOver(AbsorbAll(reg, pages[0]).value, flag, pages[1..]);
      }
    }
  }

  // ---------- one pull ----------

  /** What one asked and answered page does: only a's memory and disk change. */
  lemma {:induction false} PageArrives(w: World, a: string, b: string, after: Option<string>, last: bool) returns (next: World)
    requires Inv(w) && a in w.replicas && b in w.replicas && a != b
    ensures var page := Page(w.replicas[b].memory.entries, after);
      var ask, take := Sending(b, after), Receiving(a, page, last, Saved);
      && Enabled(w, ask) && Enabled(Step(w, ask), take) && next == Step(Step(w, ask), take)
      && Inv(next) && next.replicas.Keys == w.replicas.Keys
      && (forall d :: d in w.replicas && d != a ==> next.replicas[d] == w.replicas[d])
      && AbsorbAll(w.replicas[a].memory, page).Ok?
      && next.replicas[a].memory
         == AbsorbAll(w.replicas[a].memory, page).value.(initialSyncComplete := w.replicas[a].memory.initialSyncComplete || last)
  {
    var page := Page(w.replicas[b].memory.entries, after);
    var ask, take := Sending(b, after), Receiving(a, page, last, Saved);
    var asked := PageIsAsked(w, b, after);
    next := Step(asked, take);
    PageIsTaken(asked, a, page, last);
  }

  lemma PageIsAsked(w: World, b: string, after: Option<string>) returns (asked: World)
    requires Inv(w) && b in w.replicas
    ensures Enabled(w, Sending(b, after)) && asked == Step(w, Sending(b, after)) && Inv(asked) && asked.replicas == w.replicas
    ensures RecordSet(Page(w.replicas[b].memory.entries, after)) <= asked.wire
  {
    SendKeepsInv(w, b, after);
    asked := Step(w, Sending(b, after));
  }

  lemma PageIsTaken(w: World, a: string, page: seq<NameRecord>, last: bool)
    requires Inv(w) && a in w.replicas && RecordSet(page) <= w.wire
    ensures Enabled(w, Receiving(a, page, last, Saved)) && Inv(Step(w, Receiving(a, page, last, Saved)))
    ensures var next := Step(w, Receiving(a, page, last, Saved));
      && next.replicas.Keys == w.replicas.Keys
      && forall d :: d in w.replicas && d != a ==> next.replicas[d] == w.replicas[d]
    ensures var memory, next := w.replicas[a].memory, Step(w, Receiving(a, page, last, Saved));
      && AbsorbAll(memory, page).Ok?
      && next.replicas[a].memory == AbsorbAll(memory, page).value.(initialSyncComplete := memory.initialSyncComplete || last)
  {
    var memory := w.replicas[a].memory;
    PagesNeverConflict(w, a, page, last, Saved);
    FlagIsCarried(memory, memory.initialSyncComplete || last, page);
    SavedMergeAdopts(memory, page, last);
  }

  lemma SavedMergeAdopts(memory: Register, records: seq<NameRecord>, initial: bool)
    requires Merge(memory, records, initial, Saved).result.Ok?
    ensures AbsorbAll(memory.(initialSyncComplete := memory.initialSyncComplete || initial), records)
         == Ok(Merge(memory, records, initial, Saved).memory)
  {
  }

  lemma RunTwo(w: World, first: Event, second: Event, rest: seq<Event>)
    requires Enabled(w, first) && Enabled(Step(w, first), second)
    requires Admissible(Step(Step(w, first), second), rest)
    ensures Admissible(w, [first, second] + rest)
    ensures Run(w, [first, second] + rest) == Run(Step(Step(w, first), second), rest)
  {
    var events := [first, second] + rest;
    assert events[1..] == [second] + rest;
    assert events[1..][1..] == rest;
  }

  /** Pulling from here on absorbs exactly the pages from here on. */
  lemma {:induction false} PullAbsorbsPages(w: World, a: string, b: string, entries: map<string, NameRecord>, after: Option<string>)
    requires Inv(w) && a in w.replicas && b in w.replicas && a != b
    requires entries == w.replicas[b].memory.entries && Proper(entries)
    ensures Admissible(w, PullEvents(entries, after, a, b))
    ensures var done := Run(w, PullEvents(entries, after, a, b));
      && Inv(done) && done.replicas.Keys == w.replicas.Keys
      && (forall d :: d in w.replicas && d != a ==> done.replicas[d] == w.replicas[d])
      && AbsorbPages(w.replicas[a].memory, Pages(entries, after)).Ok?
      && done.replicas[a].memory.entries == AbsorbPages(w.replicas[a].memory, Pages(entries, after)).value.entries
    decreases |Past(entries.Keys, after)|
  {
    var page := Page(entries, after);
    var last := |page| < PAGE;
    var next := PageArrives(w, a, b, after, last);
    if last {
      RunTwo(w, Sending(b, after), Receiving(a, page, last, Saved), []);
      assert PullEvents(entries, after, a, b) == [Sending(b, after), Receiving(a, page, last, Saved)] + [];
      OnePage(w.replicas[a].memory, page);
    } else {
      RestIsSmaller(entries, after);
      var rest := Some(page[PAGE - 1].key);
      PullAbsorbsPages(next, a, b, entries, rest);
      RunTwo(w, Sending(b, after), Receiving(a, page, last, Saved), PullEvents(entries, rest, a, b));
      LaterPages(w.replicas[a].memory, page, Pages(entries, rest), next.replicas[a].memory);
    }
  }

  /** A memory that took a page, and then the others, took them all. */
  lemma LaterPages(before: Register, page: seq<NameRecord>, rest: seq<seq<NameRecord>>, after: Register)
    requires AbsorbAll(before, page).Ok? && AbsorbPages(after, rest).Ok?
    requires after == AbsorbAll(before, page).value.(initialSyncComplete := after.initialSyncComplete)
    ensures AbsorbPages(before, [page] + rest).Ok?
    ensures AbsorbPages(before, [page] + rest).value.entries == AbsorbPages(after, rest).value.entries
  {
    MorePages(before, page, rest);
    FlagIsCarriedOver(AbsorbAll(before, page).value, after.initialSyncComplete, rest);
  }

  lemma OnePage(reg: Register, page: seq<NameRecord>)
    ensures AbsorbPages(reg, [page]) == AbsorbAll(reg, page)
  {
    assert [page][1..] == [];
  }

  lemma MorePages(reg: Register, page: seq<NameRecord>, rest: seq<seq<NameRecord>>)
    requires AbsorbAll(reg, page).Ok?
    ensures AbsorbPages(reg, [page] + rest) == AbsorbPages(AbsorbAll(reg, page).value, rest)
  {
    assert ([page] + rest)[1..] == rest;
  }

  // ---------- both ways ----------

  lemma CoherentIsProper(w: World, d: string)
    requires Inv(w) && d in w.replicas
    ensures Proper(w.replicas[d].memory.entries)
  {
    var reg := w.replicas[d].memory;
    forall k | k in reg.entries ensures Filed(reg.entries, reg.clock, k) {
    }
  }

  /** Entries of two devices that share a version are the same entry. */
  lemma DevicesAgreeOnVersions(w: World, a: string, b: string)
    requires Inv(w) && a in w.replicas && b in w.replicas
    ensures KeyedAlike(w.replicas[a].memory.entries, w.replicas[b].memory.entries)
  {
    var x, y := w.replicas[a].memory.entries, w.replicas[b].memory.entries;
    forall k | k in x && k in y && x[k].version == y[k].version ensures x[k] == y[k] {
      assert x[k] in w.replicas[a].seen && y[k] in w.replicas[b].seen;
      assert Known(w, x[k]) && Known(w, y[k]) && SameVersion(x[k], y[k]);
    }
  }

  lemma {:induction false} PullTakesTheNewer(w: World, a: string, b: string) returns (events: seq<Event>)
    requires Inv(w) && a in w.replicas && b in w.replicas && a != b
    ensures Admissible(w, events)
    ensures var done := Run(w, events);
      && Inv(done) && done.replicas.Keys == w.replicas.Keys
      && (forall d :: d in w.replicas && d != a ==> done.replicas[d] == w.replicas[d])
      && done.replicas[a].memory.entries == Maximum(w.replicas[a].memory.entries, w.replicas[b].memory.entries)
    ensures Proper(w.replicas[b].memory.entries) && events == PullEvents(w.replicas[b].memory.entries, None, a, b)
  {
    var entries := w.replicas[b].memory.entries;
    CoherentIsProper(w, b);
    DevicesAgreeOnVersions(w, a, b);
    events := PullEvents(entries, None, a, b);
    PullAbsorbsPages(w, a, b, entries, None);
    PullIsMerge(w.replicas[a].memory, entries);
  }

  lemma MaximumAbsorbs(a: map<string, NameRecord>, b: map<string, NameRecord>)
    requires KeyedAlike(a, b)
    ensures Maximum(b, Maximum(a, b)) == Maximum(a, b)
  {
    var m := Maximum(a, b);
    forall k | k in m ensures Maximum(b, m)[k] == m[k] {
      if k in a && k in b {
        OlderIsTotalOrder(a[k].version, a[k].version, b[k].version);
        OlderIsTotalOrder(b[k].version, b[k].version, a[k].version);
      } else if k in b {
        OlderIsTotalOrder(b[k].version, b[k].version, b[k].version);
      }
    }
  }

  lemma SameEntriesSameClock(x: Register, y: Register)
    requires ClockIsHighest(x) && ClockIsHighest(y) && x.entries == y.entries
    ensures x.clock == y.clock
  {
  }

  /** Anywhere in any run: after a pulled all pages of b, and b then all pages of a,
      both hold the same entries and the same clock, and no name of either is lost
      to an older one. */
  lemma {:induction false} MutualPullConverges(names: set<string>, history: seq<Event>, a: string, b: string)
    returns (pull: seq<Event>, pullBack: seq<Event>)
    requires Admissible(Boot(names), history)
    requires var w := Run(Boot(names), history); a in w.replicas && b in w.replicas && a != b
    ensures var w := Run(Boot(names), history);
      && Proper(w.replicas[b].memory.entries) && pull == PullEvents(w.replicas[b].memory.entries, None, a, b)
      && Admissible(w, pull)
      && var half := Run(w, pull);
      && a in half.replicas && b in half.replicas
      && Proper(half.replicas[a].memory.entries) && pullBack == PullEvents(half.replicas[a].memory.entries, None, b, a)
      && Admissible(half, pullBack)
      && var done := Run(half, pullBack);
      && a in done.replicas && b in done.replicas
      && done.replicas[a].memory.entries == done.replicas[b].memory.entries
      && done.replicas[a].memory.entries == Maximum(w.replicas[a].memory.entries, w.replicas[b].memory.entries)
      && done.replicas[a].memory.clock == done.replicas[b].memory.clock
  {
    BootIsSound(names);
    RunKeepsInv(Boot(names), history);
    var w := Run(Boot(names), history);
    pull := PullTakesTheNewer(w, a, b);
    var half := Run(w, pull);
    pullBack := PullTakesTheNewer(half, b, a);
    var done := Run(half, pullBack);
    DevicesAgreeOnVersions(w, a, b);
    MaximumAbsorbs(w.replicas[a].memory.entries, w.replicas[b].memory.entries);
    SameEntriesSameClock(done.replicas[a].memory, done.replicas[b].memory);
  }
}
