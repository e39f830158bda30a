/** What each owner gets, read off the history of registrations, deliveries and
    drains in any interleaving. */
module InboxRuns {
  import opened Wrappers
  import opened Primitives
  import opened Inboxes

  datatype Event =
    | Register(claim: string -> bool)
    | RegisterBounded(claim: string -> bool, capacity: nat, maxPayload: nat)
    | Deliver(frame: Frame)
    | Drain(inbox: nat)
    | DrainAll

  /** Owners bound their queue to at least one frame, and drain only their own. */
  predicate Allowed(slots: seq<Slot>, event: Event) {
    match event
    case RegisterBounded(_, capacity, maxPayload) => capacity > 0 && maxPayload > 0
    case Drain(inbox) => 0 < inbox < |slots|
    case _ => true
  }

  function Stepped(slots: seq<Slot>, event: Event): (r: seq<Slot>)
    requires |slots| > 0 && Allowed(slots, event)
    ensures |r| >= |slots|
  {
    match event
    case Register(claim) => Registered(slots, Owner(Some(claim), None))
    case RegisterBounded(claim, capacity, maxPayload) => Registered(slots, Owner(Some(claim), Some(Limits(capacity, maxPayload))))
    case Deliver(frame) => Delivered(slots, frame)
    case Drain(inbox) => Drained(slots, inbox)
    case DrainAll => Emptied(slots)
  }

  /** The registry after each event. */
  ghost predicate Run(states: seq<seq<Slot>>, events: seq<Event>) {
    && |states| == |events| + 1
    && states[0] == [Slot(TAIL, [])]
    && forall i {:trigger events[i]} :: 0 <= i < |events| ==>
         |states[i]| > 0 && Allowed(states[i], events[i]) && states[i + 1] == Stepped(states[i], events[i])
  }

  // ---------- the history-based account ----------

  /** Who is registered, in order, once these events happened. */
  function OwnersAfter(events: seq<Event>): (owners: seq<Owner>)
    ensures |owners| > 0
  {
    if events == [] then [TAIL]
    else
      var before, last := OwnersAfter(events[..|events| - 1]), events[|events| - 1];
      match last
      case Register(claim) => before + [Owner(Some(claim), None)]
      case RegisterBounded(claim, capacity, maxPayload) => before + [Owner(Some(claim), Some(Limits(capacity, maxPayload)))]
      case _ => before
  }

  /** The k-th event delivers a frame that belongs to owner o. */
  predicate Belongs(events: seq<Event>, k: nat, o: nat) {
    && k < |events| && events[k].Deliver?
    && var owners := OwnersAfter(events[..k]);
       o == FirstClaimer(owners, events[k].frame.channel) && NotTooLarge(owners[o], events[k].frame)
  }

  /** An owner with limits takes no frame above its own; the others take any. */
  predicate NotTooLarge(owner: Owner, frame: Frame) {
    owner.limits.Some? ==> |frame.payload| <= owner.limits.value.maxPayload
  }

  predicate Takes(event: Event, o: nat) {
    event.DrainAll? || (event.Drain? && event.inbox == o)
  }

  /** The deliveries that belong to owner o since it was last drained, by position. */
  function Held(events: seq<Event>, o: nat): (ks: seq<nat>) {
    if events == [] then []
    else
      var before, k := Held(events[..|events| - 1], o), |events| - 1;
      if Takes(events[k], o) then [] else if Belongs(events, k, o) then before + [k] else before
  }

  ghost predicate Deliveries(events: seq<Event>, ks: seq<nat>) {
    && (forall i :: 0 <= i < |ks| ==> ks[i] < |events| && events[ks[i]].Deliver?)
    && (forall i, j :: 0 <= i < j < |ks| ==> ks[i] < ks[j])
  }

  lemma {:induction false} HeldInOrder(events: seq<Event>, o: nat)
    ensures Deliveries(events, Held(events, o))
  {
    if events != [] {
      HeldInOrder(events[..|events| - 1], o);
    }
  }

  /** Exactly the deliveries of o that no drain of o followed. */
  lemma {:induction false} HeldIsWhatArrivedSince(events: seq<Event>, o: nat, k: nat)
    ensures k in Held(events, o)
            <==> Belongs(events, k, o) && forall j :: k < j < |events| ==> !Takes(events[j], o)
  {
    if events != [] {
      var before, last := events[..|events| - 1], |events| - 1;
      HeldInOrder(before, o);
      HeldIsWhatArrivedSince(before, o, k);
      if k < last {
        assert events[..k] == before[..k];
        assert forall j :: k < j < last ==> before[j] == events[j];
      }
    }
  }

  ghost function FramesAt(events: seq<Event>, ks: seq<nat>): (frames: seq<Frame>)
    requires Deliveries(events, ks)
  {
    seq(|ks|, i requires 0 <= i < |ks| => events[ks[i]].frame)
  }

  /** What a queue keeps of the frames filed in it: the tail the last 256, a bounded
      owner as many as it may hold, any other owner all. */
  function Kept(owner: Owner, frames: seq<Frame>): (r: seq<Frame>) {
    match (owner.claim, owner.limits)
    case (None, _) => LastN(frames, 256)
    case (Some(_), Some(limits)) => LastN(frames, limits.capacity)
    case (Some(_), None) => frames
  }

  /** The frames owner o would be given now. */
  ghost function Expected(events: seq<Event>, o: nat): (frames: seq<Frame>)
    requires o < |OwnersAfter(events)|
  {
    HeldInOrder(events, o);
    Kept(OwnersAfter(events)[o], FramesAt(events, Held(events, o)))
  }

  // ---------- the queues refine it ----------

  ghost predicate WellFormed(owners: seq<Owner>) {
    && |owners| > 0 && owners[0] == TAIL
    && forall i :: 0 < i < |owners| ==> owners[i].claim.Some? && (owners[i].limits.Some? ==> owners[i].limits.value.capacity > 0)
  }

  lemma {:induction false} OwnersAreWellFormed(events: seq<Event>)
    requires forall i :: 0 <= i < |events| && events[i].RegisterBounded? ==> events[i].capacity > 0
    ensures WellFormed(OwnersAfter(events))
  {
    if events != [] {
      OwnersAreWellFormed(events[..|events| - 1]);
    }
  }

  lemma PushKeepsLast(held: seq<Frame>, frame: Frame, capacity: nat)
    requires capacity > 0
    ensures Pushed(LastN(held, capacity), frame, capacity) == LastN(held + [frame], capacity)
  {
  }

  /** What one more event does to the frames owner o is to get. */
  lemma HeldNext(events: seq<Event>, o: nat)
    requires |events| > 0
    ensures var before, k := events[..|events| - 1], |events| - 1;
      && Deliveries(events, Held(events, o)) && Deliveries(before, Held(before, o))
      && FramesAt(events, Held(events, o))
         == if Takes(events[k], o) then []
            else if Belongs(events, k, o) then FramesAt(before, Held(before, o)) + [events[k].frame]
            else FramesAt(before, Held(before, o))
  {
    var before, k := events[..|events| - 1], |events| - 1;
    HeldInOrder(events, o);
    HeldInOrder(before, o);
    FramesStay(events, Held(before, o));
    if !Takes(events[k], o) && Belongs(events, k, o) {
      FramesGrow(events, Held(before, o), k);
    }
  }

  lemma FramesStay(events: seq<Event>, ks: seq<nat>)
    requires |events| > 0 && Deliveries(events[..|events| - 1], ks)
    ensures Deliveries(events, ks) && FramesAt(events, ks) == FramesAt(events[..|events| - 1], ks)
  {
    var before := events[..|events| - 1];
    forall i | 0 <= i < |ks| ensures events[ks[i]] == before[ks[i]] {
    }
  }

  lemma FramesGrow(events: seq<Event>, ks: seq<nat>, k: nat)
    requires Deliveries(events, ks) && Deliveries(events, ks + [k]) && k < |events| && events[k].Deliver?
    ensures FramesAt(events, ks + [k]) == FramesAt(events, ks) + [events[k].frame]
  {
    var longer, shorter := FramesAt(events, ks + [k]), FramesAt(events, ks);
    forall i | 0 <= i < |ks| ensures longer[i] == shorter[i] {
      assert (ks + [k])[i] == ks[i];
    }
    assert (ks + [k])[|ks|] == k;
  }

  lemma DeliveryFollows(slots: seq<Slot>, frame: Frame, o: nat, held: seq<Frame>)
    requires WellFormed(Owners(slots)) && o < |slots| && slots[o].queue == Kept(slots[o].owner, held)
    ensures Owners(Delivered(slots, frame)) == Owners(slots)
    ensures Delivered(slots, frame)[o].queue ==
      Kept(slots[o].owner,
           if o == FirstClaimer(Owners(slots), frame.channel) && NotTooLarge(slots[o].owner, frame) then held + [frame] else held)
  {
    var capacity := Capacity(slots[o].owner);
    if capacity.Some? {
      PushKeepsLast(held, frame, capacity.value);
    }
  }

  lemma SameOwners(slots: seq<Slot>, after: seq<Slot>)
    requires |slots| == |after| && forall i :: 0 <= i < |slots| ==> after[i].owner == slots[i].owner
    ensures Owners(after) == Owners(slots)
  {
  }

  lemma OneMoreOwner(slots: seq<Slot>, owner: Owner)
    ensures Owners(Registered(slots, owner)) == Owners(slots) + [owner]
  {
  }

  lemma OwnersFollow(slots: seq<Slot>, events: seq<Event>)
    requires |events| > 0 && |slots| > 0 && Allowed(slots, events[|events| - 1])
    requires Owners(slots) == OwnersAfter(events[..|events| - 1])
    ensures Owners(Stepped(slots, events[|events| - 1])) == OwnersAfter(events)
  {
    var event := events[|events| - 1];
    match event {
      case Register(claim) => OneMoreOwner(slots, Owner(Some(claim), None));
      case RegisterBounded(claim, capacity, maxPayload) => OneMoreOwner(slots, Owner(Some(claim), Some(Limits(capacity, maxPayload))));
      case Deliver(frame) => SameOwners(slots, Delivered(slots, frame));
      case Drain(inbox) => SameOwners(slots, Drained(slots, inbox));
      case DrainAll => SameOwners(slots, Emptied(slots));
    }
  }

  lemma QueueFollows(slots: seq<Slot>, events: seq<Event>, o: nat)
    requires |events| > 0
    requires var before := events[..|events| - 1];
      && WellFormed(OwnersAfter(before))
      && Owners(slots) == OwnersAfter(before)
      && Allowed(slots, events[|events| - 1])
      && (if o < |slots| then slots[o].queue == Expected(before, o) else Held(before, o) == [])
    requires o < |OwnersAfter(events)|
    ensures var after := Stepped(slots, events[|events| - 1]);
      Owners(after) == OwnersAfter(events) && after[o].queue == Expected(events, o)
  {
    var before, event := events[..|events| - 1], events[|events| - 1];
    OwnersFollow(slots, events);
    HeldNext(events, o);
    var held, next := FramesAt(before, Held(before, o)), FramesAt(events, Held(events, o));
    var after := Stepped(slots, event)[o];
    assert after.owner == OwnersAfter(events)[o];
    if event.Deliver? {
      DeliveryFollows(slots, event.frame, o, held);
      assert Belongs(events, |events| - 1, o)
             <==> o == FirstClaimer(Owners(slots), event.frame.channel) && NotTooLarge(slots[o].owner, event.frame);
    }
    assert after.queue == Kept(after.owner, next);
  }

  /** No owner, no frames. */
  lemma {:induction false} NothingBeforeRegistration(events: seq<Event>, o: nat)
    requires o >= |OwnersAfter(events)|
    ensures Held(events, o) == []
  {
    if events != [] {
      NothingBeforeRegistration(events[..|events| - 1], o);
    }
  }

  /** At every moment each queue holds exactly the frames whose first claimer its
      owner was, since it was last drained, in order of arrival; a bounded one, and
      the tail, the last of them. */
  lemma {:induction false} QueuesHoldTheirOwn(states: seq<seq<Slot>>, events: seq<Event>, n: nat, o: nat)
    requires Run(states, events) && n <= |events| && o < |OwnersAfter(events[..n])|
    ensures Owners(states[n]) == OwnersAfter(events[..n])
    ensures states[n][o].queue == Expected(events[..n], o)
    decreases n
  {
    if n > 0 {
      var upTo := events[..n];
      assert upTo[..n - 1] == events[..n - 1];
      assert Allowed(states[n - 1], events[n - 1]);
      QueuesHoldTheirOwn(states, events, n - 1, 0);
      var earlier := events[..n - 1];
      forall i | 0 <= i < |earlier| && earlier[i].RegisterBounded? ensures earlier[i].capacity > 0 {
        assert Allowed(states[i], events[i]);
      }
      OwnersAreWellFormed(earlier);
      if o < |OwnersAfter(events[..n - 1])| {
        QueuesHoldTheirOwn(states, events, n - 1, o);
      } else {
        NothingBeforeRegistration(events[..n - 1], o);
      }
      QueueFollows(states[n - 1], upTo, o);
    }
  }

  /** The deliveries a drain of owner o hands out, if the n-th event is one. */
  function HandedOut(events: seq<Event>, n: nat, o: nat): (ks: seq<nat>)
    requires n <= |events|
  {
    Held(events[..n], o)
  }

  /** No delivery reaches two owners, and none reaches its owner twice. */
  lemma EachFrameReachesOneDrain(events: seq<Event>, n: nat, o: nat, later: nat, other: nat, k: nat)
    requires n < |events| && Takes(events[n], o)
    requires later < |events| && Takes(events[later], other)
    requires k in HandedOut(events, n, o) && k in HandedOut(events, later, other)
    ensures o == other && n == later
  {
    HeldIsWhatArrivedSince(events[..n], o, k);
    HeldIsWhatArrivedSince(events[..later], other, k);
    assert events[..n][..k] == events[..k] && events[..later][..k] == events[..k];
  }

  /** What the first `count` owners would be given now, one after the other. */
  ghost function AllExpected(events: seq<Event>, count: nat): (frames: seq<Frame>)
    requires count <= |OwnersAfter(events)|
  {
    if count == 0 then [] else AllExpected(events, count - 1) + Expected(events, count - 1)
  }

  lemma {:induction false} EverythingUpTo(states: seq<seq<Slot>>, events: seq<Event>, n: nat, count: nat)
    requires Run(states, events) && n <= |events| && count <= |OwnersAfter(events[..n])| == |states[n]|
    ensures Everything(states[n][..count]) == AllExpected(events[..n], count)
  {
    if count > 0 {
      EverythingUpTo(states, events, n, count - 1);
      QueuesHoldTheirOwn(states, events, n, count - 1);
      assert states[n][..count][..count - 1] == states[n][..count - 1];
    }
  }

  /** A reset gives out what each owner was still to get, owner by owner, and what
      nobody claimed. */
  lemma ResetGivesEveryoneTheirs(states: seq<seq<Slot>>, events: seq<Event>, n: nat)
    requires Run(states, events) && n <= |events|
    ensures Everything(states[n]) == AllExpected(events[..n], |OwnersAfter(events[..n])|)
  {
    QueuesHoldTheirOwn(states, events, n, 0);
    EverythingUpTo(states, events, n, |states[n]|);
    assert states[n][..|states[n]|] == states[n];
  }
}
