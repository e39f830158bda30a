/** How far a member gets when nobody forges and the store never refuses: the
    least epoch not delivered, unless its buffer overflowed. */
module CommitSequencerExactness {
  import opened CommitSequencers
  import opened CommitSequencerRuns

  /** Nobody forges, the store keeps everything, and only deliveries move the epoch. */
  predicate Benign(events: seq<Event>) {
    forall i :: 0 <= i < |events| ==>
      && !events[i].Advance?
      && (events[i].Deliver? ==> !events[i].commit.Forged? && events[i].refused == {})
  }

  /** The epochs whose genuine commit arrived. */
  function Delivered(events: seq<Event>): (epochs: set<nat>) {
    if events == [] then {}
    else
      var before, last := Delivered(events[..|events| - 1]), events[|events| - 1];
      if last.Deliver? && last.commit.Genuine? then before + {last.commit.epoch} else before
  }

  /** The least epoch at or above `start` that is not in `epochs`. */
  function Least(start: nat, epochs: set<nat>): (e: nat)
    ensures e >= start && e !in epochs && forall x: nat :: start <= x < e ==> x in epochs
    decreases |epochs|
  {
    if start !in epochs then start
    else
      var rest := epochs - {start};
      var least := Least(start + 1, rest);
      assert forall x: nat :: start <= x < least ==> x in epochs by {
        forall x: nat | start <= x < least ensures x in epochs {
          assert x == start || x in rest;
        }
      }
      least
  }

  /** What a member that is not stalled holds back. */
  function Held(start: nat, epochs: set<nat>): (held: set<nat>) {
    var least := Least(start, epochs);
    set e | e in epochs && e > least
  }

  ghost predicate AllGenuine(buffered: map<nat, Commit>) {
    forall e :: e in buffered ==> buffered[e] == Genuine(e)
  }

  ghost predicate NoneBelow(m: Member) {
    forall e :: e in m.sequencer.buffered ==> e >= m.epoch
  }

  /** The drain runs to the first epoch that is not buffered and leaves the later ones. */
  lemma {:induction false} BenignDrain(m: Member, start: nat)
    requires Inv(m, start) && AllGenuine(m.sequencer.buffered) && NoneBelow(m)
    ensures var (d, ok) := Drained(m, {});
      && ok
      && AllGenuine(d.sequencer.buffered)
      && d.epoch == Least(m.epoch, m.sequencer.buffered.Keys)
      && d.sequencer.buffered.Keys == Held(m.epoch, m.sequencer.buffered.Keys)
    decreases |m.sequencer.buffered|
  {
    if m.epoch in m.sequencer.buffered {
      var c := m.sequencer.buffered[m.epoch];
      var keys := m.sequencer.buffered.Keys;
      AcceptedKeepsInv(m, c, start);
      assert Accepted(m, c).sequencer.buffered.Keys == keys - {m.epoch};
      assert keys == (keys - {m.epoch}) + {m.epoch};
      BenignDrain(Accepted(m, c), start);
      NextHeld(m.epoch, keys);
    } else {
      assert Held(m.epoch, m.sequencer.buffered.Keys) == m.sequencer.buffered.Keys;
    }
  }

  lemma NextHeld(epoch: nat, keys: set<nat>)
    requires epoch in keys
    ensures Least(epoch, keys) == Least(epoch + 1, keys - {epoch})
    ensures Held(epoch + 1, keys - {epoch}) == Held(epoch, keys)
  {
  }

  /** Everything passed or buffered was delivered, and all that is buffered is ahead. */
  ghost predicate Explained(m: Member, start: nat, epochs: set<nat>) {
    && AllGenuine(m.sequencer.buffered)
    && (forall e :: e in m.sequencer.buffered ==> e > m.epoch)
    && (forall e: nat :: start <= e < m.epoch ==> e in epochs)
    && m.sequencer.buffered.Keys <= epochs
  }

  lemma DrainStaysExplained(m: Member, start: nat, epochs: set<nat>)
    requires Inv(m, start) && AllGenuine(m.sequencer.buffered) && NoneBelow(m)
    requires m.sequencer.buffered.Keys <= epochs && (forall e: nat :: start <= e < m.epoch ==> e in epochs)
    ensures Drained(m, {}).1 && Explained(Drained(m, {}).0, start, epochs)
  {
    BenignDrain(m, start);
    var d := Drained(m, {}).0;
    forall e: nat | start <= e < d.epoch ensures e in epochs {
      assert e < m.epoch || e in m.sequencer.buffered.Keys;
    }
  }

  /** The member once the arriving commit was classified, and applied if it was due. */
  lemma BenignBeforeDrain(m: Member, e: nat, start: nat, epochs: set<nat>) returns (ready: Member)
    requires Inv(m, start) && Explained(m, start, epochs)
    ensures Inv(ready, start) && AllGenuine(ready.sequencer.buffered) && NoneBelow(ready)
    ensures ready.sequencer.buffered.Keys <= epochs + {e}
    ensures forall x: nat :: start <= x < ready.epoch ==> x in epochs + {e}
    ensures Sequenced(m, Genuine(e), {}).0 == Drained(ready, {}).0
  {
    if e == m.epoch {
      ready := BenignApply(m, start, epochs);
    } else {
      ready := BenignHold(m, e, start, epochs);
    }
  }

  lemma BenignApply(m: Member, start: nat, epochs: set<nat>) returns (ready: Member)
    requires Inv(m, start) && Explained(m, start, epochs)
    ensures ready == Accepted(m, Genuine(m.epoch))
    ensures Inv(ready, start) && AllGenuine(ready.sequencer.buffered) && NoneBelow(ready)
    ensures ready.sequencer.buffered.Keys <= epochs + {m.epoch}
    ensures forall x: nat :: start <= x < ready.epoch ==> x in epochs + {m.epoch}
    ensures Sequenced(m, Genuine(m.epoch), {}).0 == Drained(ready, {}).0
  {
    var c := Genuine(m.epoch);
    ready := Accepted(m, c);
    AcceptedKeepsInv(m, c, start);
    CurrentCommitIsApplied(m, {}, start);
    DeliveryDrains(m, c, {});
  }

  lemma BenignHold(m: Member, e: nat, start: nat, epochs: set<nat>) returns (ready: Member)
    requires Inv(m, start) && Explained(m, start, epochs) && e != m.epoch
    ensures Inv(ready, start) && AllGenuine(ready.sequencer.buffered) && NoneBelow(ready)
    ensures ready.sequencer.buffered.Keys <= epochs + {e}
    ensures forall x: nat :: start <= x < ready.epoch ==> x in epochs + {e}
    ensures Sequenced(m, Genuine(e), {}).0 == Drained(ready, {}).0
  {
    ready := BeforeDrain(m, Genuine(e), e);
    OfferedKeepsInv(m, Genuine(e), start);
    DeliveryDrains(m, Genuine(e), {});
  }

  lemma BenignDelivery(m: Member, e: nat, start: nat, epochs: set<nat>)
    requires Inv(m, start) && Explained(m, start, epochs)
    ensures Explained(Sequenced(m, Genuine(e), {}).0, start, epochs + {e})
  {
    var ready := BenignBeforeDrain(m, e, start, epochs);
    DrainStaysExplained(ready, start, epochs + {e});
  }

  lemma {:induction false} BenignRun(start: nat, events: seq<Event>)
    requires Benign(events)
    ensures Explained(Ran(start, events), start, Delivered(events))
  {
    if events != [] {
      var before, last := events[..|events| - 1], events[|events| - 1];
      BenignRun(start, before);
      AppliedIsTheGenuineChain(start, before);
      if last.Deliver? && last.commit.Genuine? {
        BenignDelivery(Ran(start, before), last.commit.epoch, start, Delivered(before));
      }
    }
  }

  lemma {:induction false} EpochsGrow(start: nat, events: seq<Event>, i: nat)
    requires i <= |events|
    ensures Ran(start, events[..i]).epoch <= Ran(start, events).epoch
  {
    if i == |events| {
      assert events[..i] == events;
    } else {
      var before := events[..|events| - 1];
      assert before[..i] == events[..i];
      EpochsGrow(start, before, i);
      AppliedIsTheGenuineChain(start, before);
      SteppedKeepsInv(Ran(start, before), events[|events| - 1], start);
    }
  }

  /** No room: 64 other epochs are buffered. */
  predicate Overflows(m: Member, e: nat) {
    e > m.epoch && e !in m.sequencer.buffered && |m.sequencer.buffered| == BUFFER_CAP
  }

  /** A delivered commit is passed, or buffered, or arrived at a full buffer. */
  lemma LostOnlyByOverflow(start: nat, events: seq<Event>, i: nat)
    requires Benign(events) && i < |events| && events[i].Deliver? && events[i].commit.Genuine?
    ensures var e, m := events[i].commit.epoch, Ran(start, events);
      e >= m.epoch && e !in m.sequencer.buffered ==> Overflows(Ran(start, events[..i]), e)
  {
    var e := events[i].commit.epoch;
    var at := Ran(start, events[..i]);
    AppliedIsTheGenuineChain(start, events[..i]);
    assert events[..i + 1][..i] == events[..i];
    EpochsGrow(start, events, i + 1);
    if Ran(start, events).epoch <= e && !Overflows(at, e) {
      if e == at.epoch {
        CurrentCommitIsApplied(at, {}, start);
      } else {
        EpochsGrow(start, events, i);
        DeliveredIsBuffered(at, e, start);
        FirstWriterIsKept(start, events, i + 1, e);
        AppliedIsTheGenuineChain(start, events);
        BenignRun(start, events);
      }
    }
  }

  lemma DeliveredIsBuffered(m: Member, e: nat, start: nat)
    requires Inv(m, start) && e > m.epoch && !Overflows(m, e)
    ensures var d := Sequenced(m, Genuine(e), {}).0; e in d.sequencer.buffered || d.epoch > e
  {
    var c := Genuine(e);
    assert c !in m.sequencer.applied;
    OfferedKeepsInv(m, c, start);
    var s := Offered(m.sequencer, m.epoch, e, c).0;
    DrainedKeepsEntry(m.(sequencer := s), {}, e);
  }

  /** The current epoch is the least epoch not delivered, or its commit was
      delivered, and each time found the buffer full of later ones. */
  lemma StalledOnlyByOverflow(start: nat, events: seq<Event>)
    requires Benign(events)
    ensures var e := Ran(start, events).epoch;
      && e <= Least(start, Delivered(events))
      && (e == Least(start, Delivered(events)) <==> e !in Delivered(events))
      && (forall i :: 0 <= i < |events| && events[i].Deliver? && events[i].commit == Genuine(e)
                      ==> Overflows(Ran(start, events[..i]), e))
  {
    var e := Ran(start, events).epoch;
    BenignRun(start, events);
    AppliedIsTheGenuineChain(start, events);
    forall i | 0 <= i < |events| && events[i].Deliver? && events[i].commit == Genuine(e)
      ensures Overflows(Ran(start, events[..i]), e)
    {
      LostOnlyByOverflow(start, events, i);
    }
  }

  /** Without forgeries, refusals and epochs passed elsewhere, a gap is reported
      exactly if something is buffered. */
  lemma HonestGapIsReported(start: nat, events: seq<Event>)
    requires Benign(events)
    ensures var m := Ran(start, events); GapAt(m.sequencer, m.epoch) <==> m.sequencer.buffered != map[]
  {
    BenignRun(start, events);
  }

  // ---------- exactness while at most 64 epochs wait ----------

  ghost predicate Exact(m: Member, start: nat, epochs: set<nat>) {
    m.epoch == Least(start, epochs) && m.sequencer.buffered.Keys == Held(start, epochs)
  }

  /** Nothing delivered at or above the current epoch is missing from the buffer. */
  lemma NothingLostIsExact(m: Member, start: nat, epochs: set<nat>)
    requires Inv(m, start) && Explained(m, start, epochs)
    requires forall e :: e in epochs && e >= m.epoch ==> e in m.sequencer.buffered
    ensures Exact(m, start, epochs)
  {
    assert m.epoch !in epochs;
    assert Least(start, epochs) == m.epoch;
  }

  lemma {:induction false} DeliveredAt(events: seq<Event>, e: nat) returns (i: nat)
    requires e in Delivered(events)
    ensures i < |events| && events[i].Deliver? && events[i].commit == Genuine(e)
  {
    i := |events| - 1;
    if !(events[i].Deliver? && events[i].commit == Genuine(e)) {
      i := DeliveredAt(events[..|events| - 1], e);
    }
  }

  lemma OverflowHoldsMore(m: Member, e: nat, start: nat, epochs: set<nat>)
    requires Exact(m, start, epochs) && Overflows(m, e)
    ensures |Held(start, epochs + {e})| > BUFFER_CAP
  {
    var waiting := m.sequencer.buffered.Keys;
    assert Least(start, epochs + {e}) == m.epoch by {
      var least := Least(start, epochs + {e});
      assert least >= m.epoch;
    }
    assert Held(start, epochs + {e}) == waiting + {e};
  }

  /** Whatever the order and duplication: while at most 64 epochs wait at any time,
      the current epoch is exactly the least epoch not delivered, and exactly the
      delivered epochs above it are buffered. */
  lemma {:induction false} EpochIsTheLeastMissing(start: nat, events: seq<Event>)
    requires Benign(events)
    requires forall i :: 0 <= i <= |events| ==> |Held(start, Delivered(events[..i]))| <= BUFFER_CAP
    ensures Exact(Ran(start, events), start, Delivered(events))
    decreases |events|
  {
    var m, epochs := Ran(start, events), Delivered(events);
    BenignRun(start, events);
    AppliedIsTheGenuineChain(start, events);
    forall e | e in epochs && e >= m.epoch ensures e in m.sequencer.buffered {
      var i := DeliveredAt(events, e);
      LostOnlyByOverflow(start, events, i);
      var before := events[..i];
      assert events[..i + 1][..i] == before;
      assert Delivered(events[..i + 1]) == Delivered(before) + {e};
      assert |Held(start, Delivered(before) + {e})| <= BUFFER_CAP;
      forall j | 0 <= j <= i ensures before[..j] == events[..j] {
      }
      EpochIsTheLeastMissing(start, before);
      if Overflows(Ran(start, before), e) {
        OverflowHoldsMore(Ran(start, before), e, start, Delivered(before));
      }
    }
    NothingLostIsExact(m, start, epochs);
  }

  // ---------- 64 is the exact bound ----------

  /** Epochs 1 to n arrive before epoch 0. */
  function Early(n: nat): (events: seq<Event>) {
    seq(n, i requires 0 <= i < n => Deliver(Genuine(i + 1), {}))
  }

  lemma {:induction false} EarlyIsDelivered(n: nat)
    ensures forall e: nat :: e in Delivered(Early(n)) <==> 1 <= e <= n
    ensures |Delivered(Early(n))| == n
  {
    if n > 0 {
      EarlyIsDelivered(n - 1);
      assert Early(n)[..n - 1] == Early(n - 1);
      assert Delivered(Early(n)) == Delivered(Early(n - 1)) + {n};
    }
  }

  lemma EarlyWaits(n: nat)
    requires n <= BUFFER_CAP
    ensures var m := Ran(0, Early(n)); m.epoch == 0 && m.sequencer.buffered.Keys == Delivered(Early(n))
  {
    forall i | 0 <= i <= n ensures |Held(0, Delivered(Early(n)[..i]))| <= BUFFER_CAP {
      assert Early(n)[..i] == Early(i);
      EarlyIsDelivered(i);
      assert Held(0, Delivered(Early(i))) == Delivered(Early(i));
    }
    EpochIsTheLeastMissing(0, Early(n));
    EarlyIsDelivered(n);
    assert Held(0, Delivered(Early(n))) == Delivered(Early(n));
  }

  lemma OverflowChangesNothing(m: Member, e: nat)
    requires Overflows(m, e) && m.epoch !in m.sequencer.buffered
    ensures Sequenced(m, Genuine(e), {}).0 == m
  {
  }

  lemma OneMoreEvent(start: nat, events: seq<Event>, event: Event)
    ensures Ran(start, events + [event]) == Stepped(Ran(start, events), event)
  {
    assert (events + [event])[..|events|] == events;
  }

  lemma OneMoreDelivery(events: seq<Event>, e: nat)
    ensures Delivered(events + [Deliver(Genuine(e), {})]) == Delivered(events) + {e}
  {
    assert (events + [Deliver(Genuine(e), {})])[..|events|] == events;
  }

  lemma NextIsDropped(n: nat)
    requires n == BUFFER_CAP
    ensures Ran(0, Early(n + 1)) == Ran(0, Early(n))
  {
    EarlyWaits(n);
    EarlyIsDelivered(n);
    var m := Ran(0, Early(n));
    assert |m.sequencer.buffered.Keys| == n;
    OverflowChangesNothing(m, n + 1);
    OneMoreEvent(0, Early(n), Deliver(Genuine(n + 1), {}));
    assert Early(n + 1) == Early(n) + [Deliver(Genuine(n + 1), {})];
  }

  lemma SameBefore(start: nat, left: seq<Event>, right: seq<Event>, event: Event)
    requires Ran(start, left) == Ran(start, right)
    ensures Ran(start, left + [event]) == Ran(start, right + [event])
  {
    OneMoreEvent(start, left, event);
    OneMoreEvent(start, right, event);
  }

  lemma NotPastUndelivered(events: seq<Event>, e: nat)
    requires Benign(events) && e !in Delivered(events)
    ensures Ran(0, events).epoch <= e
  {
    BenignRun(0, events);
  }

  lemma EarlyThenFirst(n: nat)
    ensures Benign(Early(n) + [Deliver(Genuine(0), {})])
    ensures forall e: nat :: e in Delivered(Early(n) + [Deliver(Genuine(0), {})]) <==> e <= n
  {
    EarlyIsDelivered(n);
    OneMoreDelivery(Early(n), 0);
  }

  /** With one epoch more than the buffer takes, the last one is lost: once epoch 0
      arrives the member does not get past it, although every epoch was delivered. */
  lemma OneMoreThanTheBufferStalls(n: nat)
    requires n == BUFFER_CAP
    ensures var events := Early(n + 1) + [Deliver(Genuine(0), {})];
      && Benign(events)
      && Ran(0, events).epoch <= n + 1
      && (forall e: nat :: e <= n + 1 ==> e in Delivered(events))
  {
    EarlyThenFirst(n);
    EarlyThenFirst(n + 1);
    NextIsDropped(n);
    SameBefore(0, Early(n + 1), Early(n), Deliver(Genuine(0), {}));
    NotPastUndelivered(Early(n) + [Deliver(Genuine(0), {})], n + 1);
  }
}
