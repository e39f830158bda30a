/** Epoch-ordered admission of group commits. Source:
    mosh-core/src/commit_sequencer.rs, driven by `sequence_commit` in
    mosh-core/src/private_group_runtime/sequencing.rs. */
module CommitSequencers {
  import opened Wrappers

  const BUFFER_CAP: nat := 64

  /** A commit as it arrives: the one the group made for its epoch, anything else
      that names an epoch, or text that names none. */
  datatype Commit = Genuine(epoch: nat) | Forged(epoch: nat, tag: int) | Unreadable(tag: int)

  function WireEpoch(c: Commit): (e: Option<nat>) {
    match c
    case Genuine(e) => Some(e)
    case Forged(e, _) => Some(e)
    case Unreadable(_) => None
  }

  datatype Disposition = Apply | Buffered | AlreadySeen

  datatype Sequencer = Sequencer(applied: set<Commit>, buffered: map<nat, Commit>, lastRequested: Option<nat>)

  function Offered(s: Sequencer, current: nat, epoch: nat, c: Commit): (r: (Sequencer, Disposition)) {
    if c in s.applied || epoch < current then (s, AlreadySeen)
    else if epoch == current then (s, Apply)
    else if epoch !in s.buffered && |s.buffered| < BUFFER_CAP then (s.(buffered := s.buffered[epoch := c]), Buffered)
    else (s, Buffered)
  }

  function Confirmed(s: Sequencer, c: Commit): (r: Sequencer) {
    s.(applied := s.applied + {c})
  }

  function Removed(s: Sequencer, epoch: nat): (r: Sequencer) {
    s.(buffered := s.buffered - {epoch})
  }

  /** The lowest buffered epoch lies above the current one. */
  predicate GapAt(s: Sequencer, current: nat) {
    s.buffered != map[] && forall e :: e in s.buffered ==> e > current
  }

  predicate IsLeast(head: nat, epochs: set<nat>) {
    head in epochs && forall e :: e in epochs ==> head <= e
  }

  lemma {:induction false} LeastExists(epochs: set<nat>)
    requires epochs != {}
    ensures exists head :: IsLeast(head, epochs)
  {
    var x :| x in epochs;
    if epochs == {x} {
      assert IsLeast(x, epochs);
    } else {
      LeastExists(epochs - {x});
      var head :| IsLeast(head, epochs - {x});
      assert forall e :: e in epochs ==> e == x || e in epochs - {x};
      assert IsLeast(if x < head then x else head, epochs);
    }
  }

  /** A group member: its epoch, its sequencer, and the commits it applied. */
  datatype Member = Member(epoch: nat, sequencer: Sequencer, log: seq<Commit>)

  datatype Outcome = Done | Gapped

  /** The group state accepts only the genuine commit of its epoch, and the store
      may refuse to keep it. */
  predicate Accepts(epoch: nat, c: Commit, refused: set<nat>) {
    c == Genuine(epoch) && epoch !in refused
  }

  function Accepted(m: Member, c: Commit): (r: Member) {
    Member(m.epoch + 1, Confirmed(Removed(m.sequencer, m.epoch), c), m.log + [c])
  }

  /** Applies buffered successors until none is ready; false if one is not accepted. */
  function Drained(m: Member, refused: set<nat>): (r: (Member, bool))
    decreases |m.sequencer.buffered|
  {
    if m.epoch !in m.sequencer.buffered then (m, true)
    else
      var c := m.sequencer.buffered[m.epoch];
      if !Accepts(m.epoch, c, refused) then (m, false)
      else
        assert m.sequencer.buffered.Keys == (m.sequencer.buffered - {m.epoch}).Keys + {m.epoch};
        Drained(Accepted(m, c), refused)
  }

  /** One incoming commit. Err: it, or a buffered successor, was not accepted. */
  function Sequenced(m: Member, c: Commit, refused: set<nat>): (r: (Member, Result<Outcome, ()>)) {
    match WireEpoch(c)
    case None => (m, Err(()))
    case Some(epoch) =>
      var (s, disposition) := Offered(m.sequencer, m.epoch, epoch, c);
      var offered := m.(sequencer := s);
      if disposition == Apply && !Accepts(m.epoch, c, refused) then (offered, Err(()))
      else
        var (drained, ok) := Drained(if disposition == Apply then Accepted(offered, c) else offered, refused);
        if !ok then (drained, Err(()))
        else (drained, Ok(if GapAt(drained.sequencer, drained.epoch) then Gapped else Done))
  }

  /** The genuine commits of `count` epochs in a row. */
  function GenuineFrom(epoch: nat, count: nat): (cs: seq<Commit>)
    ensures |cs| == count && forall i :: 0 <= i < count ==> cs[i] == Genuine(epoch + i)
  {
    seq(count, i requires 0 <= i < count => Genuine(epoch + i))
  }

  /** The group state moved on by itself: a commit this device made, a Welcome, or a
      recovery. The sequencer is not told. */
  function Advanced(m: Member, count: nat): (r: Member) {
    m.(epoch := m.epoch + count, log := m.log + GenuineFrom(m.epoch, count))
  }

  /** One look at the gap. True: a resync request went out. */
  function Noticed(m: Member, published: bool): (r: (Member, bool)) {
    if !GapAt(m.sequencer, m.epoch) || m.sequencer.lastRequested == Some(m.epoch) then (m, false)
    else (m.(sequencer := m.sequencer.(lastRequested := if published then Some(m.epoch) else None)), published)
  }

  class CommitSequencer {
    var applied: set<Commit>
    var buffered: map<nat, Commit>
    var lastRequested: Option<nat>

    constructor ()
      ensures State() == Sequencer({}, map[], None)
    {
      applied, buffered, lastRequested := {}, map[], None;
    }

    ghost function State(): (s: Sequencer)
      reads this
    {
      Sequencer(applied, buffered, lastRequested)
    }

    method Offer(current: nat, epoch: nat, c: Commit) returns (d: Disposition)
      modifies this`buffered
      ensures (State(), d) == Offered(old(State()), current, epoch, c)
    {
      if c in applied {
        return AlreadySeen;
      }
      if epoch < current {
        return AlreadySeen;
      } else if epoch == current {
        return Apply;
      }
      if epoch !in buffered && |buffered| < BUFFER_CAP {
        buffered := buffered[epoch := c];
      }
      return Buffered;
    }

    /** Also `mark_seen`, for a commit absorbed through a Welcome. */
    method Confirm(c: Commit)
      modifies this`applied
      ensures State() == Confirmed(old(State()), c)
    {
      applied := applied + {c};
    }

    method DrainReady(current: nat) returns (c: Option<Commit>)
      modifies this`buffered
      ensures State() == Removed(old(State()), current)
      ensures c == if current in old(buffered) then Some(old(buffered)[current]) else None
    {
      c := PeekReady(current);
      buffered := buffered - {current};
    }

    function PeekReady(current: nat): (c: Option<Commit>)
      reads this
    {
      if current in buffered then Some(buffered[current]) else None
    }

    /** Commits between the current epoch and the buffered head are missing. */
    method Gap(current: nat) returns (gap: bool)
      ensures gap <==> GapAt(State(), current)
    {
      if buffered == map[] {
        return false;
      }
      LeastExists(buffered.Keys);
      var head: nat :| head in buffered && IsLeast(head, buffered.Keys);
      return head > current;
    }

    method ShouldRequest(have: nat) returns (fire: bool)
      modifies this`lastRequested
      ensures fire <==> old(lastRequested) != Some(have)
      ensures lastRequested == Some(have)
    {
      if lastRequested == Some(have) {
        return false;
      }
      lastRequested := Some(have);
      return true;
    }

    method Rearm()
      modifies this`lastRequested
      ensures lastRequested == None
    {
      lastRequested := None;
    }
  }

  /** The group state of a member, as far as sequencing can see it. */
  class Group {
    var epoch: nat
    var log: seq<Commit>

    constructor (epoch: nat)
      ensures this.epoch == epoch && log == []
    {
      this.epoch, log := epoch, [];
    }

    method Accept(c: Commit, refused: set<nat>) returns (ok: bool)
      modifies this
      ensures ok == Accepts(old(epoch), c, refused)
      ensures epoch == old(epoch) + (if ok then 1 else 0)
      ensures log == if ok then old(log) + [c] else old(log)
    {
      ok := c == Genuine(epoch) && epoch !in refused;
      if ok {
        epoch, log := epoch + 1, log + [c];
      }
    }

    method Advance(count: nat)
      modifies this
      ensures epoch == old(epoch) + count && log == old(log) + GenuineFrom(old(epoch), count)
    {
      epoch, log := epoch + count, log + GenuineFrom(epoch, count);
    }
  }

  /** The drain loop; false if a ready commit was not accepted. */
  method DrainInto(group: Group, sequencer: CommitSequencer, refused: set<nat>) returns (ok: bool)
    modifies group, sequencer
    ensures (Member(group.epoch, sequencer.State(), group.log), ok)
         == Drained(old(Member(group.epoch, sequencer.State(), group.log)), refused)
  {
    ghost var start := Member(group.epoch, sequencer.State(), group.log);
    var next := sequencer.PeekReady(group.epoch);
    while next.Some?
      invariant next == sequencer.PeekReady(group.epoch)
      invariant Drained(Member(group.epoch, sequencer.State(), group.log), refused) == Drained(start, refused)
      decreases |sequencer.buffered|
    {
      var current := group.epoch;
      ghost var before := Member(current, sequencer.State(), group.log);
      assert sequencer.buffered.Keys == (sequencer.buffered - {current}).Keys + {current};
      ok := group.Accept(next.value, refused);
      if !ok {
        return false;
      }
      var _ := sequencer.DrainReady(current);
      sequencer.Confirm(next.value);
      assert Member(group.epoch, sequencer.State(), group.log) == Accepted(before, next.value);
      next := sequencer.PeekReady(group.epoch);
    }
    return true;
  }

  /** Classify, apply in order, drain what became ready, report the gap left. */
  method SequenceCommit(group: Group, sequencer: CommitSequencer, c: Commit, refused: set<nat>)
    returns (r: Result<Outcome, ()>)
    modifies group, sequencer
    ensures (Member(group.epoch, sequencer.State(), group.log), r)
         == Sequenced(old(Member(group.epoch, sequencer.State(), group.log)), c, refused)
  {
    var epoch := WireEpoch(c);
    if epoch.None? {
      return Err(());
    }
    var disposition := sequencer.Offer(group.epoch, epoch.value, c);
    if disposition == Apply {
      var ok := group.Accept(c, refused);
      if !ok {
        return Err(());
      }
      var _ := sequencer.DrainReady(epoch.value);
      sequencer.Confirm(c);
    }
    var ok := DrainInto(group, sequencer, refused);
    if !ok {
      return Err(());
    }
    var gap := sequencer.Gap(group.epoch);
    return Ok(if gap then Gapped else Done);
  }

  /** Asks for a resync at most once per stuck epoch; `published`: the network took it. */
  method RequestResyncIfGapped(group: Group, sequencer: CommitSequencer, published: bool) returns (sent: bool)
    modifies sequencer`lastRequested
    ensures (Member(group.epoch, sequencer.State(), group.log), sent)
         == Noticed(old(Member(group.epoch, sequencer.State(), group.log)), published)
  {
    var gap := sequencer.Gap(group.epoch);
    if !gap {
      return false;
    }
    var fire := sequencer.ShouldRequest(group.epoch);
    if !fire {
      return false;
    }
    if !published {
      sequencer.Rearm();
    }
    return published;
  }
}
