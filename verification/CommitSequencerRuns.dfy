/** What any stream of commits does to a member: whole runs of deliveries, gap
    notices and rearms, in any order, with duplicates, forgeries and store refusals,
    and with epochs the group passes without the sequencer. */
module CommitSequencerRuns {
  import opened Wrappers
  import opened CommitSequencers

  datatype Event =
    | Deliver(commit: Commit, refused: set<nat>)
    | Notice(published: bool)
    | Rearmed
    | Advance(count: nat)

  function Joined(start: nat): (m: Member) {
    Member(start, Sequencer({}, map[], None), [])
  }

  function Stepped(m: Member, event: Event): (r: Member) {
    match event
    case Deliver(c, refused) => Sequenced(m, c, refused).0
    case Notice(published) => Noticed(m, published).0
    case Rearmed => m.(sequencer := m.sequencer.(lastRequested := None))
    case Advance(count) => Advanced(m, count)
  }

  function Ran(start: nat, events: seq<Event>): (m: Member) {
    if events == [] then Joined(start)
    else Stepped(Ran(start, events[..|events| - 1]), events[|events| - 1])
  }

  // ---------- what every step keeps ----------

  predicate Chain(log: seq<Commit>, start: nat) {
    forall i :: 0 <= i < |log| ==> log[i] == Genuine(start + i)
  }

  ghost predicate OnlyApplied(applied: set<Commit>, log: seq<Commit>) {
    forall c :: c in applied ==> c in log
  }

  /** At most 64 commits, each under the epoch it names. */
  ghost predicate Holds(buffered: map<nat, Commit>) {
    && |buffered| <= BUFFER_CAP
    && (forall e :: e in buffered ==> WireEpoch(buffered[e]) == Some(e))
  }

  /** The log is the genuine chain up to the current epoch, nothing outside it was
      confirmed, and the buffer holds at most 64 commits, each under its epoch. */
  ghost predicate Inv(m: Member, start: nat) {
    && m.epoch == start + |m.log|
    && Chain(m.log, start)
    && OnlyApplied(m.sequencer.applied, m.log)
    && Holds(m.sequencer.buffered)
  }

  lemma RemovedHolds(buffered: map<nat, Commit>, current: nat)
    requires Holds(buffered)
    ensures Holds(buffered - {current})
  {
    var kept := buffered - {current};
    if current in buffered {
      assert buffered.Keys == kept.Keys + {current};
    } else {
      assert buffered == kept;
    }
  }

  lemma AcceptedKeepsInv(m: Member, c: Commit, start: nat)
    requires Inv(m, start) && c == Genuine(m.epoch)
    ensures Inv(Accepted(m, c), start)
  {
    RemovedHolds(m.sequencer.buffered, m.epoch);
    assert forall x :: x in m.log || x == c ==> x in m.log + [c];
  }

  lemma {:induction false} DrainedKeepsInv(m: Member, refused: set<nat>, start: nat)
    requires Inv(m, start)
    ensures Inv(Drained(m, refused).0, start)
    ensures Drained(m, refused).0.epoch >= m.epoch
    ensures Drained(m, refused).1 <==> Drained(m, refused).0.epoch !in Drained(m, refused).0.sequencer.buffered
    decreases |m.sequencer.buffered|
  {
    if m.epoch in m.sequencer.buffered {
      var c := m.sequencer.buffered[m.epoch];
      if Accepts(m.epoch, c, refused) {
        AcceptedKeepsInv(m, c, start);
        assert m.sequencer.buffered.Keys == (m.sequencer.buffered - {m.epoch}).Keys + {m.epoch};
        DrainedKeepsInv(Accepted(m, c), refused, start);
      }
    }
  }

  /** The member as it is when the drain begins, when there is one. */
  function BeforeDrain(m: Member, c: Commit, epoch: nat): (r: Member) {
    var (s, disposition) := Offered(m.sequencer, m.epoch, epoch, c);
    if disposition == Apply then Accepted(m.(sequencer := s), c) else m.(sequencer := s)
  }

  /** A delivery drains unless its text is unreadable or it names the current epoch
      and is not accepted. */
  predicate Drains(m: Member, c: Commit, refused: set<nat>) {
    && WireEpoch(c).Some?
    && (Offered(m.sequencer, m.epoch, WireEpoch(c).value, c).1 == Apply ==> Accepts(m.epoch, c, refused))
  }

  lemma DeliveryDrains(m: Member, c: Commit, refused: set<nat>)
    ensures var (d, r) := Sequenced(m, c, refused);
      if Drains(m, c, refused) then
        var (drained, ok) := Drained(BeforeDrain(m, c, WireEpoch(c).value), refused);
        d == drained && (r == Err(()) <==> !ok)
        && (r.Ok? ==> r.value == if GapAt(d.sequencer, d.epoch) then Gapped else Done)
      else d == m && r == Err(())
  {
  }

  lemma OfferedKeepsInv(m: Member, c: Commit, start: nat)
    requires Inv(m, start) && WireEpoch(c).Some?
    ensures Inv(m.(sequencer := Offered(m.sequencer, m.epoch, WireEpoch(c).value, c).0), start)
  {
    var epoch := WireEpoch(c).value;
    var s := Offered(m.sequencer, m.epoch, epoch, c).0;
    if s != m.sequencer {
      assert s.buffered.Keys == m.sequencer.buffered.Keys + {epoch};
    }
  }

  lemma BeforeDrainKeepsInv(m: Member, c: Commit, refused: set<nat>, start: nat)
    requires Inv(m, start) && Drains(m, c, refused)
    ensures var ready := BeforeDrain(m, c, WireEpoch(c).value); Inv(ready, start) && ready.epoch >= m.epoch
  {
    OfferedKeepsInv(m, c, start);
    var (s, disposition) := Offered(m.sequencer, m.epoch, WireEpoch(c).value, c);
    if disposition == Apply {
      AcceptedKeepsInv(m.(sequencer := s), c, start);
    }
  }

  lemma SequencedKeepsInv(m: Member, c: Commit, refused: set<nat>, start: nat)
    requires Inv(m, start)
    ensures Inv(Sequenced(m, c, refused).0, start)
    ensures Sequenced(m, c, refused).0.epoch >= m.epoch
  {
    DeliveryDrains(m, c, refused);
    if Drains(m, c, refused) {
      BeforeDrainKeepsInv(m, c, refused, start);
      DrainedKeepsInv(BeforeDrain(m, c, WireEpoch(c).value), refused, start);
    }
  }

  lemma SteppedKeepsInv(m: Member, event: Event, start: nat)
    requires Inv(m, start)
    ensures Inv(Stepped(m, event), start)
    ensures Stepped(m, event).epoch >= m.epoch
  {
    if event.Deliver? {
      SequencedKeepsInv(m, event.commit, event.refused, start);
    }
  }

  /** Safety: whatever arrives, the commits the group stands on are the genuine
      chain of epochs start, start + 1, ... up to the current one, and nothing else
      was ever confirmed. */
  lemma {:induction false} AppliedIsTheGenuineChain(start: nat, events: seq<Event>)
    ensures Inv(Ran(start, events), start)
  {
    if events != [] {
      AppliedIsTheGenuineChain(start, events[..|events| - 1]);
      SteppedKeepsInv(Ran(start, events[..|events| - 1]), events[|events| - 1], start);
    }
  }

  // ---------- what is confirmed, and how offers are classified ----------

  /** The genuine commits of the epochs from lo up to hi. */
  ghost function Span(lo: nat, hi: nat): (cs: set<Commit>)
    ensures forall c :: c in cs <==> (c.Genuine? && lo <= c.epoch < hi)
  {
    if hi <= lo then {} else Span(lo, hi - 1) + {Genuine(hi - 1)}
  }

  lemma OneMoreInSpan(applied: set<Commit>, lo: nat, hi: nat)
    requires lo < hi
    ensures applied + {Genuine(lo)} + Span(lo + 1, hi) == applied + Span(lo, hi)
  {
  }

  lemma {:induction false} DrainConfirms(m: Member, refused: set<nat>)
    ensures var d := Drained(m, refused).0;
      d.epoch >= m.epoch && d.sequencer.applied == m.sequencer.applied + Span(m.epoch, d.epoch)
    decreases |m.sequencer.buffered|
  {
    if m.epoch in m.sequencer.buffered && Accepts(m.epoch, m.sequencer.buffered[m.epoch], refused) {
      var next := Accepted(m, m.sequencer.buffered[m.epoch]);
      assert m.sequencer.buffered.Keys == (m.sequencer.buffered - {m.epoch}).Keys + {m.epoch};
      DrainConfirms(next, refused);
      OneMoreInSpan(m.sequencer.applied, m.epoch, Drained(m, refused).0.epoch);
    }
  }

  lemma DeliveryConfirms(m: Member, c: Commit, refused: set<nat>)
    ensures var d := Sequenced(m, c, refused).0;
      d.epoch >= m.epoch && d.sequencer.applied == m.sequencer.applied + Span(m.epoch, d.epoch)
  {
    DeliveryDrains(m, c, refused);
    if Drains(m, c, refused) {
      DrainConfirms(BeforeDrain(m, c, WireEpoch(c).value), refused);
    }
  }

  /** The commits of the epochs that deliveries passed. */
  ghost function PassedByDelivery(start: nat, events: seq<Event>): (cs: set<Commit>) {
    if events == [] then {}
    else
      var before := events[..|events| - 1];
      PassedByDelivery(start, before)
      + if events[|events| - 1].Deliver? then Span(Ran(start, before).epoch, Ran(start, events).epoch) else {}
  }

  /** Confirmed are exactly the commits a delivery took the member past, and not those
      of epochs it passed by itself. */
  lemma {:induction false} ConfirmedExactly(start: nat, events: seq<Event>)
    ensures Ran(start, events).sequencer.applied == PassedByDelivery(start, events)
  {
    if events != [] {
      var before, last := events[..|events| - 1], events[|events| - 1];
      ConfirmedExactly(start, before);
      if last.Deliver? {
        DeliveryConfirms(Ran(start, before), last.commit, last.refused);
      }
    }
  }

  /** A confirmed commit is seen for good: offered again, at whatever epoch, it changes
      nothing and is not applied. */
  lemma ConfirmedIsSeen(s: Sequencer, c: Commit, current: nat, epoch: nat)
    ensures Offered(Confirmed(s, c), current, epoch, c) == (Confirmed(s, c), AlreadySeen)
  {
  }

  /** At any moment of any run an offer is answered by its epoch alone: passed, to be
      applied now, or ahead. Only one ahead is kept, if nothing is kept for its epoch
      yet and fewer than 64 are; so afterwards its epoch is held, or the buffer full. */
  lemma OffersAreClassified(start: nat, events: seq<Event>, c: Commit)
    requires WireEpoch(c).Some?
    ensures var (m, e) := (Ran(start, events), WireEpoch(c).value);
      var (s, d) := Offered(m.sequencer, m.epoch, e, c);
      && (d == AlreadySeen <==> e < m.epoch) && (d == Apply <==> e == m.epoch) && (d == Buffered <==> e > m.epoch)
      && s == m.sequencer.(buffered := s.buffered)
      && (d != Buffered ==> s == m.sequencer)
      && (d == Buffered ==> e in s.buffered || |s.buffered| == 64)
      && (s != m.sequencer ==> e !in m.sequencer.buffered && s.buffered == m.sequencer.buffered[e := c])
  {
    AppliedIsTheGenuineChain(start, events);
  }

  // ---------- a genuine commit always lands ----------

  /** What a plain list of deliveries would reach: it takes the commit it waits
      for when that arrives and is not refused, and remembers nothing else. */
  function Simple(start: nat, events: seq<Event>): (epoch: nat) {
    if events == [] then start
    else
      var epoch, last := Simple(start, events[..|events| - 1]), events[|events| - 1];
      if last.Deliver? && last.commit == Genuine(epoch) && epoch !in last.refused then epoch + 1 else epoch
  }

  lemma CurrentCommitIsApplied(m: Member, refused: set<nat>, start: nat)
    requires Inv(m, start) && m.epoch !in refused
    ensures Drains(m, Genuine(m.epoch), refused)
    ensures BeforeDrain(m, Genuine(m.epoch), m.epoch) == Accepted(m, Genuine(m.epoch))
    ensures Sequenced(m, Genuine(m.epoch), refused).0.epoch > m.epoch
  {
    var c := Genuine(m.epoch);
    assert c !in m.sequencer.applied;
    AcceptedKeepsInv(m, c, start);
    DrainedKeepsInv(Accepted(m, c), refused, start);
  }

  /** No forgery, duplicate, overflow or refusal ever costs a genuine commit that
      arrives when its predecessors have: the member is never behind the simple
      list, so replaying the chain from its epoch always brings it to the end. */
  lemma {:induction false} NeverBehindTheSimpleList(start: nat, events: seq<Event>)
    ensures Ran(start, events).epoch >= Simple(start, events)
  {
    if events != [] {
      var before, last := events[..|events| - 1], events[|events| - 1];
      NeverBehindTheSimpleList(start, before);
      AppliedIsTheGenuineChain(start, before);
      var m := Ran(start, before);
      SteppedKeepsInv(m, last, start);
      if last.Deliver? && last.commit == Genuine(m.epoch) && m.epoch !in last.refused {
        CurrentCommitIsApplied(m, last.refused, start);
      }
    }
  }

  // ---------- the buffer keeps its first writer ----------

  /** The drain leaves an entry alone, or passes its epoch by applying it. */
  lemma {:induction false} DrainedKeepsEntry(m: Member, refused: set<nat>, e: nat)
    requires e in m.sequencer.buffered
    ensures var d := Drained(m, refused).0;
      && d.epoch >= m.epoch
      && (e < m.epoch || d.epoch <= e ==>
            e in d.sequencer.buffered && d.sequencer.buffered[e] == m.sequencer.buffered[e])
    decreases |m.sequencer.buffered|
  {
    if m.epoch in m.sequencer.buffered {
      var c := m.sequencer.buffered[m.epoch];
      if Accepts(m.epoch, c, refused) {
        assert m.sequencer.buffered.Keys == (m.sequencer.buffered - {m.epoch}).Keys + {m.epoch};
        if e == m.epoch {
          DrainedOnlyGrows(Accepted(m, c), refused);
        } else {
          DrainedKeepsEntry(Accepted(m, c), refused, e);
        }
      }
    }
  }

  lemma {:induction false} DrainedOnlyGrows(m: Member, refused: set<nat>)
    ensures Drained(m, refused).0.epoch >= m.epoch
    decreases |m.sequencer.buffered|
  {
    if m.epoch in m.sequencer.buffered && Accepts(m.epoch, m.sequencer.buffered[m.epoch], refused) {
      assert m.sequencer.buffered.Keys == (m.sequencer.buffered - {m.epoch}).Keys + {m.epoch};
      DrainedOnlyGrows(Accepted(m, m.sequencer.buffered[m.epoch]), refused);
    }
  }

  /** An entry whose epoch is passed elsewhere, or not passed, stays as it is. */
  lemma SteppedKeepsEntry(m: Member, event: Event, e: nat)
    requires e in m.sequencer.buffered
    ensures var d := Stepped(m, event);
      && d.epoch >= m.epoch
      && (e < m.epoch || d.epoch <= e || event.Advance? ==>
            e in d.sequencer.buffered && d.sequencer.buffered[e] == m.sequencer.buffered[e])
  {
    if event.Deliver? {
      DeliveryDrains(m, event.commit, event.refused);
      if Drains(m, event.commit, event.refused) {
        var ready := BeforeDrain(m, event.commit, WireEpoch(event.commit).value);
        if e in ready.sequencer.buffered {
          DrainedKeepsEntry(ready, event.refused, e);
        } else {
          DrainedOnlyGrows(ready, event.refused);
        }
      }
    }
  }

  /** Garbage never evicts: what was buffered for an epoch is still there, the
      same commit, until that epoch has been passed. */
  lemma {:induction false} FirstWriterIsKept(start: nat, events: seq<Event>, i: nat, e: nat)
    requires i <= |events| && e in Ran(start, events[..i]).sequencer.buffered
    ensures var m := Ran(start, events);
      m.epoch > e || (e in m.sequencer.buffered
                      && m.sequencer.buffered[e] == Ran(start, events[..i]).sequencer.buffered[e])
  {
    if i == |events| {
      assert events[..i] == events;
    } else {
      var before := events[..|events| - 1];
      assert before[..i] == events[..i];
      FirstWriterIsKept(start, before, i, e);
      AppliedIsTheGenuineChain(start, before);
      SteppedKeepsInv(Ran(start, before), events[|events| - 1], start);
      if e in Ran(start, before).sequencer.buffered {
        SteppedKeepsEntry(Ran(start, before), events[|events| - 1], e);
      }
    }
  }

  // ---------- resync requests ----------

  /** The epochs for which a request went out since the last rearm. */
  function Asked(start: nat, events: seq<Event>): (epochs: seq<nat>) {
    if events == [] then []
    else
      AskedNext(Ran(start, events[..|events| - 1]), events[|events| - 1], Asked(start, events[..|events| - 1]))
  }

  function AskedNext(m: Member, event: Event, asked: seq<nat>): (epochs: seq<nat>) {
    match event
    case Notice(published) => if Noticed(m, published).1 then asked + [m.epoch] else asked
    case Rearmed => []
    case _ => asked
  }

  /** The epochs asked for strictly increase, and the reservation is the last of
      them if that is the current epoch. */
  ghost predicate AskedInOrder(asked: seq<nat>, epoch: nat, lastRequested: Option<nat>) {
    && (forall i, j :: 0 <= i < j < |asked| ==> asked[i] < asked[j])
    && (forall i :: 0 <= i < |asked| ==> asked[i] <= epoch)
    && (lastRequested == Some(epoch) <==> epoch in asked)
    && (lastRequested.Some? ==> lastRequested.value <= epoch)
  }

  lemma LaterEpochKeepsOrder(asked: seq<nat>, epoch: nat, later: nat, lastRequested: Option<nat>)
    requires AskedInOrder(asked, epoch, lastRequested) && epoch <= later
    ensures AskedInOrder(asked, later, lastRequested)
  {
    if later in asked {
      var i :| 0 <= i < |asked| && asked[i] == later;
      assert asked[i] <= epoch;
    }
  }

  lemma AskingKeepsOrder(asked: seq<nat>, epoch: nat, lastRequested: Option<nat>)
    requires AskedInOrder(asked, epoch, lastRequested) && lastRequested != Some(epoch)
    ensures AskedInOrder(asked + [epoch], epoch, Some(epoch))
    ensures AskedInOrder(asked, epoch, None)
  {
    forall i | 0 <= i < |asked| ensures asked[i] < epoch {
      assert asked[i] in asked;
    }
  }

  lemma {:induction false} DrainedKeepsRequest(m: Member, refused: set<nat>)
    ensures Drained(m, refused).0.sequencer.lastRequested == m.sequencer.lastRequested
    decreases |m.sequencer.buffered|
  {
    if m.epoch in m.sequencer.buffered && Accepts(m.epoch, m.sequencer.buffered[m.epoch], refused) {
      assert m.sequencer.buffered.Keys == (m.sequencer.buffered - {m.epoch}).Keys + {m.epoch};
      DrainedKeepsRequest(Accepted(m, m.sequencer.buffered[m.epoch]), refused);
    }
  }

  lemma DeliveryKeepsRequest(m: Member, c: Commit, refused: set<nat>)
    ensures Sequenced(m, c, refused).0.sequencer.lastRequested == m.sequencer.lastRequested
  {
    DeliveryDrains(m, c, refused);
    if Drains(m, c, refused) {
      DrainedKeepsRequest(BeforeDrain(m, c, WireEpoch(c).value), refused);
    }
  }

  lemma DeliveryOnlyAdvances(m: Member, c: Commit, refused: set<nat>)
    ensures Sequenced(m, c, refused).0.epoch >= m.epoch
  {
    DeliveryDrains(m, c, refused);
    if Drains(m, c, refused) {
      DrainedOnlyGrows(BeforeDrain(m, c, WireEpoch(c).value), refused);
    }
  }

  lemma AskedNextInOrder(m: Member, event: Event, asked: seq<nat>)
    requires AskedInOrder(asked, m.epoch, m.sequencer.lastRequested)
    ensures var d := Stepped(m, event); AskedInOrder(AskedNext(m, event, asked), d.epoch, d.sequencer.lastRequested)
  {
    match event {
      case Deliver(c, refused) =>
        var d := Sequenced(m, c, refused).0;
        DeliveryOnlyAdvances(m, c, refused);
        DeliveryKeepsRequest(m, c, refused);
        LaterEpochKeepsOrder(asked, m.epoch, d.epoch, m.sequencer.lastRequested);
      case Notice(published) =>
        if m.sequencer.lastRequested != Some(m.epoch) {
          AskingKeepsOrder(asked, m.epoch, m.sequencer.lastRequested);
        }
      case Rearmed =>
      case Advance(count) =>
        LaterEpochKeepsOrder(asked, m.epoch, m.epoch + count, m.sequencer.lastRequested);
    }
  }

  lemma {:induction false} AskedSoFar(start: nat, events: seq<Event>)
    ensures var m := Ran(start, events); AskedInOrder(Asked(start, events), m.epoch, m.sequencer.lastRequested)
  {
    if events != [] {
      var before := events[..|events| - 1];
      AskedSoFar(start, before);
      AskedNextInOrder(Ran(start, before), events[|events| - 1], Asked(start, before));
    }
  }

  /** A stuck epoch is asked for once between rearms: a notice sends a request
      exactly when there is a gap, the network takes it, and no request for this
      epoch went out since the last rearm. */
  lemma OneRequestPerStuckEpoch(start: nat, events: seq<Event>, published: bool)
    ensures var m := Ran(start, events);
      Noticed(m, published).1
      <==> GapAt(m.sequencer, m.epoch) && published && m.epoch !in Asked(start, events)
    ensures forall i, j :: 0 <= i < j < |Asked(start, events)| ==> Asked(start, events)[i] < Asked(start, events)[j]
  {
    AskedSoFar(start, events);
  }
}
