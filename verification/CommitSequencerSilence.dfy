/** When a member that holds commits back says so, and when it falls silent: the gap
    is judged by the least buffered epoch, so one entry that the epoch has reached
    hides all the others. */
module CommitSequencerSilence {
  import opened Wrappers
  import opened CommitSequencers
  import opened CommitSequencerRuns

  /** It holds commits back and reports no gap, so it asks for nothing. */
  predicate Silent(m: Member) {
    m.sequencer.buffered != map[] && !GapAt(m.sequencer, m.epoch)
  }

  /** An entry whose epoch was passed without it; no drain ever takes it out. */
  predicate Stale(m: Member) {
    exists e :: e in m.sequencer.buffered && e < m.epoch
  }

  lemma SilentMeansReached(m: Member)
    ensures Silent(m) <==> Stale(m) || m.epoch in m.sequencer.buffered
    ensures Silent(m) ==> forall published :: Noticed(m, published) == (m, false)
  {
  }

  // ---------- where a drain stops ----------

  predicate Takes(buffered: map<nat, Commit>, e: nat, refused: set<nat>) {
    e in buffered && Accepts(e, buffered[e], refused)
  }

  /** The first epoch from `start` on whose entry is missing or not accepted. */
  function FirstNotTaken(buffered: map<nat, Commit>, start: nat, refused: set<nat>): (e: nat)
    ensures e >= start && !Takes(buffered, e, refused)
    ensures forall x: nat :: start <= x < e ==> Takes(buffered, x, refused)
    decreases |buffered|
  {
    if !Takes(buffered, start, refused) then start
    else
      assert buffered.Keys == (buffered - {start}).Keys + {start};
      var e := FirstNotTaken(buffered - {start}, start + 1, refused);
      assert forall x: nat :: start < x < e ==> Takes(buffered - {start}, x, refused) ==> Takes(buffered, x, refused);
      e
  }

  lemma {:induction false} DrainStopsThere(m: Member, refused: set<nat>)
    ensures var (d, ok) := Drained(m, refused);
      && d.epoch == FirstNotTaken(m.sequencer.buffered, m.epoch, refused)
      && (ok <==> d.epoch !in m.sequencer.buffered)
      && (forall e :: e in d.sequencer.buffered <==> e in m.sequencer.buffered && !(m.epoch <= e < d.epoch))
    decreases |m.sequencer.buffered|
  {
    if Takes(m.sequencer.buffered, m.epoch, refused) {
      assert m.sequencer.buffered.Keys == (m.sequencer.buffered - {m.epoch}).Keys + {m.epoch};
      DrainStopsThere(Accepted(m, m.sequencer.buffered[m.epoch]), refused);
    }
  }

  /** What the caller can see before the call: the drain would stop at an entry. */
  predicate StopsAtEntry(m: Member, c: Commit, refused: set<nat>) {
    if !Drains(m, c, refused) then m.epoch in m.sequencer.buffered
    else
      var ready := BeforeDrain(m, c, WireEpoch(c).value);
      FirstNotTaken(ready.sequencer.buffered, ready.epoch, refused) in ready.sequencer.buffered
  }

  lemma OfferAddsOnlyAhead(m: Member, c: Commit, refused: set<nat>)
    requires Drains(m, c, refused)
    ensures var ready := BeforeDrain(m, c, WireEpoch(c).value);
      && ready.epoch >= m.epoch
      && (forall e :: e in ready.sequencer.buffered && e < ready.epoch ==> e in m.sequencer.buffered && e < m.epoch)
      && (forall e :: e in m.sequencer.buffered && e < m.epoch ==> e in ready.sequencer.buffered)
  {
  }

  lemma DrainKeepsStale(m: Member, refused: set<nat>)
    ensures Stale(Drained(m, refused).0) <==> Stale(m)
  {
    DrainStopsThere(m, refused);
    var d := Drained(m, refused).0;
    if Stale(m) {
      var e :| e in m.sequencer.buffered && e < m.epoch;
      assert e in d.sequencer.buffered;
    }
    if Stale(d) {
      var e :| e in d.sequencer.buffered && e < d.epoch;
      assert e in m.sequencer.buffered && e < m.epoch;
    }
  }

  lemma DeliveryKeepsStale(m: Member, c: Commit, refused: set<nat>)
    ensures Stale(Sequenced(m, c, refused).0) <==> Stale(m)
  {
    DeliveryDrains(m, c, refused);
    if Drains(m, c, refused) {
      var ready := BeforeDrain(m, c, WireEpoch(c).value);
      OfferAddsOnlyAhead(m, c, refused);
      DrainKeepsStale(ready, refused);
      if Stale(m) {
        var e :| e in m.sequencer.buffered && e < m.epoch;
        assert e in ready.sequencer.buffered;
      }
      if Stale(ready) {
        var e :| e in ready.sequencer.buffered && e < ready.epoch;
        assert e in m.sequencer.buffered;
      }
    }
  }

  lemma DeliveryStops(m: Member, c: Commit, refused: set<nat>)
    ensures var d := Sequenced(m, c, refused).0;
      d.epoch in d.sequencer.buffered <==> StopsAtEntry(m, c, refused)
  {
    DeliveryDrains(m, c, refused);
    if Drains(m, c, refused) {
      DrainStopsThere(BeforeDrain(m, c, WireEpoch(c).value), refused);
    }
  }

  /** At any moment of any run, a delivery leaves a member holding commits back and
      not asking exactly if an entry was stale before, or the drain stops at an
      entry that is not accepted. It then reports an error or, with a stale entry,
      that all is done. */
  lemma DeliverySilencesIff(start: nat, events: seq<Event>, c: Commit, refused: set<nat>)
    ensures var m := Ran(start, events);
      Silent(Sequenced(m, c, refused).0) <==> Stale(m) || StopsAtEntry(m, c, refused)
    ensures var (d, r) := Sequenced(Ran(start, events), c, refused);
      Silent(d) ==> r != Ok(Gapped) && forall published :: Noticed(d, published) == (d, false)
    ensures StopsAtEntry(Ran(start, events), c, refused) ==> Sequenced(Ran(start, events), c, refused).1 == Err(())
  {
    var m := Ran(start, events);
    DeliverySilences(m, c, refused);
  }

  lemma DeliverySilences(m: Member, c: Commit, refused: set<nat>)
    ensures Silent(Sequenced(m, c, refused).0) <==> Stale(m) || StopsAtEntry(m, c, refused)
    ensures var (d, r) := Sequenced(m, c, refused);
      Silent(d) ==> r != Ok(Gapped) && forall published :: Noticed(d, published) == (d, false)
    ensures StopsAtEntry(m, c, refused) ==> Sequenced(m, c, refused).1 == Err(())
  {
    var d := Sequenced(m, c, refused).0;
    DeliveryKeepsStale(m, c, refused);
    DeliveryStops(m, c, refused);
    SilentMeansReached(d);
    DeliveryDrains(m, c, refused);
    if Drains(m, c, refused) {
      DrainStopsThere(BeforeDrain(m, c, WireEpoch(c).value), refused);
    }
  }

  /** A delivery that ends well leaves nothing ready; it reports a gap exactly if
      something is buffered and no entry is stale. */
  lemma GapMeansHeldBack(start: nat, events: seq<Event>, c: Commit, refused: set<nat>)
    ensures var m := Ran(start, events);
      GapAt(m.sequencer, m.epoch)
      <==> m.sequencer.buffered != map[] && !Stale(m) && m.epoch !in m.sequencer.buffered
    ensures var (d, r) := Sequenced(Ran(start, events), c, refused);
      r.Ok? ==> d.epoch !in d.sequencer.buffered
                && (r.value == Gapped <==> d.sequencer.buffered != map[] && !Stale(Ran(start, events)))
  {
    var m := Ran(start, events);
    SilentMeansReached(m);
    GoodDeliveryReports(m, c, refused);
  }

  lemma GoodDeliveryReports(m: Member, c: Commit, refused: set<nat>)
    ensures var (d, r) := Sequenced(m, c, refused);
      r.Ok? ==> d.epoch !in d.sequencer.buffered
                && (r.value == Gapped <==> d.sequencer.buffered != map[] && !Stale(m))
  {
    var d := Sequenced(m, c, refused).0;
    DeliveryDrains(m, c, refused);
    DeliverySilences(m, c, refused);
    DeliveryStops(m, c, refused);
    SilentMeansReached(d);
  }

  // ---------- how long the silence lasts ----------

  /** The member has reached this entry, and no drain will take it: its epoch is
      passed, or it is the current one and the entry is not the genuine commit. */
  predicate Blocks(m: Member, e: nat) {
    e in m.sequencer.buffered && e <= m.epoch && (e == m.epoch ==> m.sequencer.buffered[e] != Genuine(e))
  }

  /** The one event that takes a blocking entry out. */
  predicate Rescues(m: Member, event: Event, e: nat) {
    event.Deliver? && event.commit == Genuine(e) && e !in event.refused && m.epoch == e
  }

  lemma RescueRemoves(m: Member, event: Event, e: nat, start: nat)
    requires Inv(m, start) && Blocks(m, e) && Rescues(m, event, e)
    ensures var d := Stepped(m, event); d.epoch > e && e !in d.sequencer.buffered
  {
    CurrentCommitIsApplied(m, event.refused, start);
    DeliveryDrains(m, event.commit, event.refused);
    DrainStopsThere(Accepted(m, Genuine(e)), event.refused);
  }

  lemma NothingElseRemoves(m: Member, event: Event, e: nat)
    requires Blocks(m, e) && !Rescues(m, event, e)
    ensures Blocks(Stepped(m, event), e)
    ensures Stepped(m, event).sequencer.buffered[e] == m.sequencer.buffered[e]
    ensures e == m.epoch && event.Deliver? ==>
      Sequenced(m, event.commit, event.refused).1 == Err(()) && Stepped(m, event).epoch == e
  {
    SteppedKeepsEntry(m, event, e);
    if event.Deliver? {
      DeliveryDrains(m, event.commit, event.refused);
      if Drains(m, event.commit, event.refused) {
        var ready := BeforeDrain(m, event.commit, WireEpoch(event.commit).value);
        if e == m.epoch {
          assert ready.epoch == e && ready.sequencer.buffered[e] == m.sequencer.buffered[e];
          assert !Takes(ready.sequencer.buffered, e, event.refused);
          DrainStopsThere(ready, event.refused);
        }
      }
    }
  }

  lemma PassedNeverReturns(m: Member, event: Event, e: nat)
    requires e < m.epoch && e !in m.sequencer.buffered
    ensures var d := Stepped(m, event); e < d.epoch && e !in d.sequencer.buffered
  {
    if event.Deliver? {
      DeliveryDrains(m, event.commit, event.refused);
      if Drains(m, event.commit, event.refused) {
        DrainStopsThere(BeforeDrain(m, event.commit, WireEpoch(event.commit).value), event.refused);
      }
    }
  }

  ghost predicate Rescued(start: nat, events: seq<Event>, i: nat, e: nat) {
    exists j :: i <= j < |events| && Rescues(Ran(start, events[..j]), events[j], e)
  }

  lemma RescuedSnoc(start: nat, events: seq<Event>, i: nat, e: nat)
    requires i < |events|
    ensures var before := events[..|events| - 1];
      Rescued(start, events, i, e)
      <==> Rescued(start, before, i, e) || Rescues(Ran(start, before), events[|events| - 1], e)
  {
    var before := events[..|events| - 1];
    forall j | i <= j < |before| ensures events[..j] == before[..j] {
    }
    if Rescued(start, before, i, e) {
      var j :| i <= j < |before| && Rescues(Ran(start, before[..j]), before[j], e);
      assert Rescues(Ran(start, events[..j]), events[j], e);
    }
    if Rescues(Ran(start, before), events[|events| - 1], e) {
      assert Rescues(Ran(start, events[..|events| - 1]), events[|events| - 1], e);
    }
  }

  /** Once an entry blocks, it stays, the same commit, and the member stays silent
      through every further event, until exactly its epoch's genuine commit is
      delivered and accepted while that epoch is current. If the epoch is passed any
      other way first, nothing ever ends the silence. */
  lemma {:induction false} SilenceLastsUntilRescued(start: nat, events: seq<Event>, i: nat, e: nat)
    requires i <= |events| && Blocks(Ran(start, events[..i]), e)
    ensures Blocks(Ran(start, events), e) <==> !Rescued(start, events, i, e)
    ensures !Rescued(start, events, i, e) ==>
      && Ran(start, events).sequencer.buffered[e] == Ran(start, events[..i]).sequencer.buffered[e]
      && Silent(Ran(start, events))
    ensures Rescued(start, events, i, e) ==>
      e < Ran(start, events).epoch && e !in Ran(start, events).sequencer.buffered
  {
    if i == |events| {
      assert events[..i] == events;
    } else {
      var before, last := events[..|events| - 1], events[|events| - 1];
      assert before[..i] == events[..i];
      SilenceLastsUntilRescued(start, before, i, e);
      RescuedSnoc(start, events, i, e);
      BlockedStep(Ran(start, before), last, e, start, Rescued(start, before, i, e), before);
    }
    SilentMeansReached(Ran(start, events));
  }

  lemma BlockedStep(m: Member, event: Event, e: nat, start: nat, rescued: bool, before: seq<Event>)
    requires m == Ran(start, before)
    requires if rescued then e < m.epoch && e !in m.sequencer.buffered else Blocks(m, e)
    ensures var d := Stepped(m, event);
      if rescued || Rescues(m, event, e) then e < d.epoch && e !in d.sequencer.buffered
      else Blocks(d, e) && d.sequencer.buffered[e] == m.sequencer.buffered[e]
  {
    AppliedIsTheGenuineChain(start, before);
    if rescued {
      PassedNeverReturns(m, event, e);
    } else if Rescues(m, event, e) {
      RescueRemoves(m, event, e, start);
    } else {
      NothingElseRemoves(m, event, e);
    }
  }

  /** While the blocking entry is the current epoch's, every delivery but the rescue
      is an error that leaves the epoch where it is. */
  lemma BlockedDeliveryFails(start: nat, events: seq<Event>, c: Commit, refused: set<nat>)
    requires var m := Ran(start, events); Blocks(m, m.epoch)
    ensures var m := Ran(start, events);
      Sequenced(m, c, refused).1 == Err(()) && Sequenced(m, c, refused).0.epoch == m.epoch
      <==> !(c == Genuine(m.epoch) && m.epoch !in refused)
  {
    var m := Ran(start, events);
    var event := Deliver(c, refused);
    AppliedIsTheGenuineChain(start, events);
    if Rescues(m, event, m.epoch) {
      RescueRemoves(m, event, m.epoch, start);
    } else {
      NothingElseRemoves(m, event, m.epoch);
    }
  }

  /** One forged commit for the next epoch, then the genuine one for this: the
      member stands at epoch 1 behind the forgery and asks for nothing. */
  lemma OneForgerySilences(events: seq<Event>)
    requires events == [Deliver(Forged(1, 0), {}), Deliver(Genuine(0), {})]
    ensures var m := Ran(0, events);
      && m.epoch == 1 && m.sequencer.buffered == map[1 := Forged(1, 0)]
      && Blocks(m, 1) && Silent(m)
  {
    var first := Joined(0);
    assert events[..1][..0] == [] && events[..2] == events;
    assert Ran(0, []) == first;
    assert Ran(0, events[..1]) == Stepped(first, events[0]);
    var second := Ran(0, events[..1]);
    assert second.sequencer == Sequencer({}, map[1 := Forged(1, 0)], None) && second.epoch == 0;
    GenuineBehindForgery(second);
    SilentMeansReached(Ran(0, events));
  }

  lemma GenuineBehindForgery(m: Member)
    requires m.epoch == 0 && m.sequencer == Sequencer({}, map[1 := Forged(1, 0)], None)
    ensures var d := Sequenced(m, Genuine(0), {}).0; d.epoch == 1 && d.sequencer.buffered == map[1 := Forged(1, 0)]
  {
    var ready := BeforeDrain(m, Genuine(0), 0);
    DeliveryDrains(m, Genuine(0), {});
    assert ready.sequencer.buffered == map[1 := Forged(1, 0)] && ready.epoch == 1;
    assert Drained(ready, {}) == (ready, false);
  }

  /** An entry that the group steps over hides every later gap for good: here epoch
      0 is passed by the device's own commit and by another one. */
  lemma SteppingOverSilences(events: seq<Event>)
    requires events == [Deliver(Forged(1, 0), {}), Advance(2)]
    ensures var m := Ran(0, events); m.epoch == 2 && Stale(m) && Silent(m)
  {
    var first := Joined(0);
    assert events[..1][..0] == [];
    assert Ran(0, []) == first;
    var second := Ran(0, events[..1]);
    assert second == Stepped(first, events[0]);
    assert second.sequencer.buffered == map[1 := Forged(1, 0)] && second.epoch == 0;
    assert 1 in Ran(0, events).sequencer.buffered;
    SilentMeansReached(Ran(0, events));
  }
}
