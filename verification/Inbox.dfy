/** Where an inbound frame is filed the moment it arrives. Source:
    mosh-core/src/inbox.rs. Every call holds the one lock, so it is one step. */
module Inboxes {
  import opened Wrappers
  import opened Primitives

  const UNCLAIMED_CAP: nat := 256

  datatype Frame = Frame(channel: string, payload: Bytes)

  datatype Limits = Limits(capacity: nat, maxPayload: nat)

  /** The channels an owner recognises; None marks the tail nobody claims. */
  datatype Owner = Owner(claim: Option<string -> bool>, limits: Option<Limits>)

  datatype Slot = Slot(owner: Owner, queue: seq<Frame>)

  const TAIL: Owner := Owner(None, None)

  predicate Claims(owner: Owner, channel: string) {
    owner.claim.Some? && owner.claim.value(channel)
  }

  /** The first owner that claims the channel, or the tail. */
  function FirstClaimer(owners: seq<Owner>, channel: string): (o: nat)
    requires |owners| > 0
    ensures o < |owners|
    ensures o > 0 || Claims(owners[0], channel) ==> Claims(owners[o], channel)
    ensures forall i :: 0 <= i < o ==> !Claims(owners[i], channel)
    ensures o == 0 ==> Claims(owners[0], channel) || forall i :: 0 <= i < |owners| ==> !Claims(owners[i], channel)
  {
    if |owners| == 1 then 0
    else
      var before := FirstClaimer(owners[..|owners| - 1], channel);
      if before > 0 || Claims(owners[0], channel) then before
      else if Claims(owners[|owners| - 1], channel) then |owners| - 1
      else 0
  }

  function Owners(slots: seq<Slot>): (owners: seq<Owner>)
    ensures |owners| == |slots| && forall i :: 0 <= i < |slots| ==> owners[i] == slots[i].owner
  {
    seq(|slots|, i requires 0 <= i < |slots| => slots[i].owner)
  }

  /** A queue that is full makes room at its front. */
  function Pushed(queue: seq<Frame>, frame: Frame, capacity: nat): (r: seq<Frame>) {
    (if |queue| >= capacity && |queue| > 0 then queue[1..] else queue) + [frame]
  }

  predicate Fits(owner: Owner, frame: Frame) {
    owner.limits.None? || |frame.payload| <= owner.limits.value.maxPayload
  }

  /** How many frames a queue keeps; None: all of them. */
  function Capacity(owner: Owner): (c: Option<nat>) {
    if owner.claim.None? then Some(UNCLAIMED_CAP)
    else if owner.limits.Some? then Some(owner.limits.value.capacity)
    else None
  }

  function Registered(slots: seq<Slot>, owner: Owner): (r: seq<Slot>) {
    slots + [Slot(owner, [])]
  }

  function Delivered(slots: seq<Slot>, frame: Frame): (r: seq<Slot>)
    requires |slots| > 0
  {
    var o := FirstClaimer(Owners(slots), frame.channel);
    var slot := slots[o];
    if !Fits(slot.owner, frame) then slots
    else
      var capacity := Capacity(slot.owner);
      slots[o := slot.(queue := if capacity.None? then slot.queue + [frame] else Pushed(slot.queue, frame, capacity.value))]
  }

  function Drained(slots: seq<Slot>, o: nat): (r: seq<Slot>)
    requires o < |slots|
  {
    slots[o := slots[o].(queue := [])]
  }

  function Emptied(slots: seq<Slot>): (r: seq<Slot>)
    ensures |r| == |slots| && forall i :: 0 <= i < |slots| ==> r[i] == slots[i].(queue := [])
  {
    seq(|slots|, i requires 0 <= i < |slots| => slots[i].(queue := []))
  }

  /** What all queues hold, slot by slot. */
  function Everything(slots: seq<Slot>): (frames: seq<Frame>) {
    if slots == [] then [] else Everything(slots[..|slots| - 1]) + slots[|slots| - 1].queue
  }

  class Slots {
    var slots: seq<Slot>

    constructor ()
      ensures slots == [Slot(TAIL, [])]
    {
      slots := [Slot(TAIL, [])];
    }

    method Register(claim: string -> bool) returns (inbox: nat)
      modifies this
      ensures slots == Registered(old(slots), Owner(Some(claim), None)) && inbox == |old(slots)|
    {
      inbox := |slots|;
      slots := slots + [Slot(Owner(Some(claim), None), [])];
    }

    method RegisterBounded(claim: string -> bool, capacity: nat, maxPayload: nat) returns (inbox: nat)
      requires capacity > 0 && maxPayload > 0
      modifies this
      ensures slots == Registered(old(slots), Owner(Some(claim), Some(Limits(capacity, maxPayload)))) && inbox == |old(slots)|
    {
      inbox := |slots|;
      slots := slots + [Slot(Owner(Some(claim), Some(Limits(capacity, maxPayload))), [])];
    }

    /** Files one frame under the first owner that claims it. */
    method Deliver(frame: Frame)
      requires |slots| > 0 && slots[0].owner == TAIL
      requires forall i :: 0 < i < |slots| ==> slots[i].owner.claim.Some?
      modifies this
      ensures slots == Delivered(old(slots), frame)
    {
      var i := 0;
      while i < |slots| && !Claims(slots[i].owner, frame.channel)
        invariant 0 <= i <= |slots|
        invariant forall k :: 0 <= k < i ==> !Claims(slots[k].owner, frame.channel)
      {
        i := i + 1;
      }
      if i < |slots| {
        var slot := slots[i];
        var queue := slot.queue;
        if slot.owner.limits.Some? {
          if |frame.payload| > slot.owner.limits.value.maxPayload {
            return;
          }
          if |queue| >= slot.owner.limits.value.capacity && |queue| > 0 {
            queue := queue[1..];
          }
        }
        slots := slots[i := slot.(queue := queue + [frame])];
      } else {
        var tail := slots[0].queue;
        if |tail| >= UNCLAIMED_CAP {
          tail := tail[1..];
        }
        slots := slots[0 := slots[0].(queue := tail + [frame])];
      }
    }

    /** Takes everything this owner has, oldest first. */
    method Drain(inbox: nat) returns (frames: seq<Frame>)
      requires inbox < |slots|
      modifies this
      ensures frames == old(slots)[inbox].queue && slots == Drained(old(slots), inbox)
    {
      frames := slots[inbox].queue;
      slots := slots[inbox := slots[inbox].(queue := [])];
    }

    /** A reset: everything every owner holds, and what nobody claimed. */
    method DrainAll() returns (frames: seq<Frame>)
      modifies this
      ensures frames == Everything(old(slots)) && slots == Emptied(old(slots))
    {
      frames := [];
      for i := 0 to |slots|
        invariant |slots| == |old(slots)|
        invariant frames == Everything(old(slots)[..i])
        invariant forall k :: 0 <= k < i ==> slots[k] == old(slots)[k].(queue := [])
        invariant forall k :: i <= k < |slots| ==> slots[k] == old(slots)[k]
      {
        assert old(slots)[..i + 1][..i] == old(slots)[..i];
        frames := frames + slots[i].queue;
        slots := slots[i := slots[i].(queue := [])];
      }
      assert old(slots)[..|slots|] == old(slots);
    }
  }
}
