/** What a bounded memory answers, read off the keys it was offered; and why a
    cache of passed checks never changes an answer. */
module BoundedMemoryRuns {
  import opened Primitives
  import opened BoundedMemories

  function Ran<K>(offers: seq<K>): (m: Memory<K>) {
    if offers == [] then Memory({}, [])
    else Recorded(Ran(offers[..|offers| - 1]), offers[|offers| - 1])
  }

  /** The offers that were new when they came: not among the 4096 before them. */
  function NewKeys<K(==)>(offers: seq<K>): (r: seq<K>) {
    if offers == [] then []
    else
      var before, key := NewKeys(offers[..|offers| - 1]), offers[|offers| - 1];
      if key in LastN(before, 4096) then before else before + [key]
  }

  ghost predicate Distinct<K(!new)>(s: seq<K>) {
    forall i, j :: 0 <= i < j < |s| ==> s[i] != s[j]
  }

  ghost predicate SameElements<K(!new)>(keys: set<K>, order: seq<K>) {
    forall k :: k in keys <==> k in order
  }

  lemma LastNextOne<K>(s: seq<K>, key: K)
    ensures LastN(s + [key], CAPACITY)
         == if |LastN(s, CAPACITY) + [key]| > CAPACITY then (LastN(s, CAPACITY) + [key])[1..] else LastN(s, CAPACITY) + [key]
  {
  }

  lemma RecordedKeepsShape<K(!new)>(m: Memory<K>, key: K)
    requires SameElements(m.keys, m.order) && Distinct(m.order) && |m.order| <= CAPACITY
    ensures var r := Recorded(m, key); SameElements(r.keys, r.order) && Distinct(r.order) && |r.order| <= CAPACITY
  {
    var r, order := Recorded(m, key), m.order + [key];
    if key !in m.keys {
      forall k ensures k in r.keys <==> k in r.order {
        assert k in order <==> k in m.order || k == key;
        if |order| > CAPACITY {
          assert order == [order[0]] + r.order;
        }
      }
    }
  }

  /** A key was seen before exactly when it is among the last 4096 new keys, and
      the set and the queue always hold those same keys, each once. */
  lemma {:induction false} MemoryIsTheLastNewKeys<K(!new)>(offers: seq<K>)
    ensures var m := Ran(offers);
      m.order == LastN(NewKeys(offers), 4096) && SameElements(m.keys, m.order) && Distinct(m.order)
  {
    if offers != [] {
      var before, key := offers[..|offers| - 1], offers[|offers| - 1];
      MemoryIsTheLastNewKeys(before);
      RecordedKeepsShape(Ran(before), key);
      LastNextOne(NewKeys(before), key);
    }
  }

  /** The key is one of the last n. */
  ghost predicate AmongLast<K(!new)>(s: seq<K>, key: K, n: nat) {
    exists i :: 0 <= i < |s| && |s| - n <= i && s[i] == key
  }

  lemma {:induction false} KeysAgeByOne<K(!new)>(offers: seq<K>, i: nat)
    requires i < |offers| && offers[i] !in Ran(offers[..i]).keys
    ensures AmongLast(NewKeys(offers), offers[i], |offers| - i)
  {
    var before, last := offers[..|offers| - 1], NewKeys(offers);
    if i == |offers| - 1 {
      MemoryIsTheLastNewKeys(before);
      assert last[|last| - 1] == offers[i];
    } else {
      assert before[..i] == offers[..i];
      KeysAgeByOne(before, i);
      var j :| 0 <= j < |NewKeys(before)| && |NewKeys(before)| - (|before| - i) <= j && NewKeys(before)[j] == offers[i];
      assert last[j] == offers[i];
    }
  }

  /** A frame recorded as new is spotted for the rest of 4096 offers, whatever they
      are; a repeat in between does not make it younger. */
  lemma NewFrameIsSpotted<K(!new)>(offers: seq<K>, i: nat)
    requires i < |offers| && offers[i] !in Ran(offers[..i]).keys && |offers| - i <= 4096
    ensures offers[i] in Ran(offers).keys
  {
    KeysAgeByOne(offers, i);
    MemoryIsTheLastNewKeys(offers);
    AmongLastIsKept(NewKeys(offers), offers[i], |offers| - i);
  }

  lemma AmongLastIsKept<K(!new)>(all: seq<K>, key: K, n: nat)
    requires n <= CAPACITY && AmongLast(all, key, n)
    ensures key in LastN(all, CAPACITY)
  {
    var j :| 0 <= j < |all| && |all| - n <= j && all[j] == key;
    var kept := LastN(all, CAPACITY);
    assert kept[j - (|all| - |kept|)] == key;
  }

  // ---------- frames ----------

  datatype Offer = Offer(channel: string, payload: Bytes)

  function Keys(offers: seq<Offer>): (keys: seq<FrameKey>)
    ensures |keys| == |offers|
    ensures forall i :: 0 <= i < |offers| ==> keys[i] == KeyOf(offers[i].channel, offers[i].payload)
  {
    seq(|offers|, i requires 0 <= i < |offers| => KeyOf(offers[i].channel, offers[i].payload))
  }

  /** Two frames share a key only if they are one frame. */
  lemma KeysTellApart(a: Offer, b: Offer)
    ensures KeyOf(a.channel, a.payload) == KeyOf(b.channel, b.payload) <==> a == b
  {
  }

  lemma KeysOfLast(offers: seq<Offer>, a: Offer)
    ensures KeyOf(a.channel, a.payload) in LastN(Keys(offers), CAPACITY) <==> a in LastN(offers, CAPACITY)
  {
    var keys, kept := LastN(Keys(offers), CAPACITY), LastN(offers, CAPACITY);
    assert forall i :: 0 <= i < |kept| ==> keys[i] == KeyOf(kept[i].channel, kept[i].payload);
    if KeyOf(a.channel, a.payload) in keys {
      var i :| 0 <= i < |keys| && keys[i] == KeyOf(a.channel, a.payload);
      KeysTellApart(kept[i], a);
      assert kept[i] in kept;
    }
    if a in kept {
      var i :| 0 <= i < |kept| && kept[i] == a;
      assert keys[i] in keys;
    }
  }

  lemma {:induction false} NewKeysAreNewFrames(offers: seq<Offer>)
    ensures NewKeys(Keys(offers)) == Keys(NewKeys(offers))
  {
    if offers != [] {
      var before, last := offers[..|offers| - 1], offers[|offers| - 1];
      NewKeysAreNewFrames(before);
      assert Keys(offers)[..|offers| - 1] == Keys(before);
      KeysOfLast(NewKeys(before), last);
      assert Keys(NewKeys(before) + [last]) == Keys(NewKeys(before)) + [KeyOf(last.channel, last.payload)];
    }
  }

  /** A frame was seen before exactly when it, channel and bytes, is among the last
      4096 frames that were new when they came. */
  lemma FramesAreSpotted(offers: seq<Offer>, frame: Offer)
    ensures KeyOf(frame.channel, frame.payload) in Ran(Keys(offers)).keys <==> frame in LastN(NewKeys(offers), 4096)
  {
    MemoryIsTheLastNewKeys(Keys(offers));
    NewKeysAreNewFrames(offers);
    KeysOfLast(NewKeys(offers), frame);
  }

  // ---------- the verification cache ----------

  /** Calls interleave freely; each looks up, and on a miss checks and concludes. */
  datatype Event = LookUp(call: nat, statement: Statement) | Conclude(call: nat)

  /** The cache, the calls that missed, and the answers given. */
  datatype Cache = Cache(memory: Memory<Fact>, waiting: map<nat, Statement>, answers: map<nat, (Statement, Verdict)>)

  ghost function Stepped(c: Cache, event: Event, check: Statement -> Verdict): (r: Cache) {
    match event
    case LookUp(call, s) =>
      if call in c.waiting || call in c.answers then c
      else if FactOf(s) in c.memory.keys then c.(answers := c.answers[call := (s, Passes)])
      else c.(waiting := c.waiting[call := s])
    case Conclude(call) =>
      if call !in c.waiting then c
      else
        var s := c.waiting[call];
        Cache(if check(s).Passes? then Recorded(c.memory, FactOf(s)) else c.memory,
              c.waiting - {call},
              c.answers[call := (s, check(s))])
  }

  ghost function CacheAfter(events: seq<Event>, check: Statement -> Verdict): (c: Cache) {
    if events == [] then Cache(Memory({}, []), map[], map[])
    else Stepped(CacheAfter(events[..|events| - 1], check), events[|events| - 1], check)
  }

  /** The fact of a statement that passes. */
  ghost predicate Passed(fact: Fact, check: Statement -> Verdict) {
    exists s :: Sized(s) && FactOf(s) == fact && check(s).Passes?
  }

  /** Only facts that pass are remembered, and at most 4096 of them. */
  ghost predicate OnlyPassed(c: Cache, check: Statement -> Verdict) {
    && (forall f :: f in c.memory.keys ==> Passed(f, check))
    && (forall call :: call in c.waiting ==> Sized(c.waiting[call]))
    && SameElements(c.memory.keys, c.memory.order) && Distinct(c.memory.order) && |c.memory.order| <= 4096
  }

  ghost predicate AnswersRight(c: Cache, check: Statement -> Verdict) {
    forall call :: call in c.answers ==> c.answers[call].1 == check(c.answers[call].0)
  }

  lemma StepKeepsAnswers(c: Cache, event: Event, check: Statement -> Verdict)
    requires OnlyPassed(c, check) && AnswersRight(c, check)
    requires event.LookUp? ==> Sized(event.statement)
    ensures OnlyPassed(Stepped(c, event, check), check) && AnswersRight(Stepped(c, event, check), check)
  {
    match event {
      case LookUp(call, s) =>
        if FactOf(s) in c.memory.keys {
          var t :| Sized(t) && FactOf(t) == FactOf(s) && check(t).Passes?;
          FactsTellApart(s, t);
          var verdict := check(s);
          assert verdict == Passes;
        }
      case Conclude(call) =>
        if call in c.waiting {
          var s := c.waiting[call];
          RecordedKeepsShape(c.memory, FactOf(s));
          assert check(s).Passes? ==> Passed(FactOf(s), check);
        }
    }
  }

  /** Every answer about a signature or a certificate, cached, fresh, or given twice
      at once, is what checking it says. */
  lemma {:induction false} CachedAnswersAreTheCheck(events: seq<Event>, check: Statement -> Verdict)
    requires forall e :: e in events && e.LookUp? ==> Sized(e.statement)
    ensures OnlyPassed(CacheAfter(events, check), check)
    ensures AnswersRight(CacheAfter(events, check), check)
  {
    if events != [] {
      var before, last := events[..|events| - 1], events[|events| - 1];
      assert events == before + [last] && last in events;
      assert forall e :: e in before ==> e in events;
      CachedAnswersAreTheCheck(before, check);
      StepKeepsAnswers(CacheAfter(before, check), last, check);
    }
  }
}
