/** Tier 1: a ring of recent events backed by a write-ahead journal. */
module Episodic {
  import opened Options
  import opened Common

  /** `uid` identifies the recording itself; the code never sees it. Sequence numbers cannot
      do that, because they start again once the journal has been emptied and reopened. */
  datatype Event = Event(seqNo: int, uid: nat, stamp: int, payload: string)

  datatype Memory = Memory(ring: seq<Event>, journal: seq<Event>, lastSeq: int, inFlight: bool)

  /** What the age window leaves: events leave from the front while they are too old. */
  function Fresh(s: seq<Event>, cutoff: Option<int>): seq<Event> {
    if s == [] || cutoff.None? || s[0].stamp >= cutoff.value then s else Fresh(s[1..], cutoff)
  }

  function Recorded(m: Memory, maxEvents: nat, uid: nat, stamp: int, payload: string, cutoff: Option<int>): Memory {
    var e := Event(m.lastSeq + 1, uid, stamp, payload);
    Memory(Fresh(Last(m.ring + [e], maxEvents), cutoff), m.journal + [e], e.seqNo, m.inFlight)
  }

  /** Draining compacts first, unless an earlier batch is still waiting to be acknowledged. */
  function Drained(m: Memory): Memory {
    Memory([], if m.inFlight then m.journal else m.ring, m.lastSeq, m.ring != [])
  }

  function Acknowledged(m: Memory): Memory {
    m.(inFlight := false, journal := m.ring)
  }

  /** What a new process finds in the journal: entries whose number goes up. */
  function Replayed(journal: seq<Event>, maxEvents: nat): Memory
    decreases journal
  {
    if journal == [] then Memory([], [], 0, false)
    else
      var e := journal[|journal| - 1];
      var m := Replayed(journal[..|journal| - 1], maxEvents);
      if e.seqNo > m.lastSeq
      then Memory(Last(m.ring + [e], maxEvents), journal, e.seqNo, false)
      else m.(journal := journal)
  }

  ghost predicate Rising(s: seq<Event>) {
    && (forall i :: 0 <= i < |s| ==> s[i].seqNo > 0)
    && forall i, j :: 0 <= i < j < |s| ==> s[i].seqNo < s[j].seqNo
  }

  ghost predicate UpTo(s: seq<Event>, n: int) {
    forall i :: 0 <= i < |s| ==> s[i].seqNo <= n
  }

  ghost predicate IsSuffix(s: seq<Event>, t: seq<Event>) {
    |s| <= |t| && s == t[|t| - |s|..]
  }

  lemma {:induction false} FreshIsSuffix(s: seq<Event>, cutoff: Option<int>)
    ensures IsSuffix(Fresh(s, cutoff), s)
  {
    if s != [] && cutoff.Some? && s[0].stamp < cutoff.value {
      FreshIsSuffix(s[1..], cutoff);
    }
  }

  /** Which events the age window takes: those in front of the first one that is young enough. */
  lemma {:induction false} FreshDropsOld(s: seq<Event>, from: nat, cutoff: Option<int>) returns (k: nat)
    requires from <= |s|
    ensures from <= k <= |s| && Fresh(s[from..], cutoff) == s[k..]
    ensures forall i :: from <= i < k ==> cutoff.Some? && s[i].stamp < cutoff.value
    ensures k < |s| && cutoff.Some? ==> cutoff.value <= s[k].stamp
    decreases |s| - from
  {
    k := from;
    if from < |s| && cutoff.Some? && s[from].stamp < cutoff.value {
      k := FreshDropsOld(s, from + 1, cutoff);
      assert s[from..][1..] == s[from + 1..];
    }
  }

  /** The memory after a recording: the event takes the next number and joins the journal, and
      the ring keeps what is neither beyond the capacity nor, from the front on, too old. */
  lemma RecordOverFields(m: Memory, maxEvents: nat, uid: nat, stamp: int, payload: string, cutoff: Option<int>)
    returns (k: nat)
    ensures var t := Recorded(m, maxEvents, uid, stamp, payload, cutoff);
            var e := Event(m.lastSeq + 1, uid, stamp, payload);
            var grown := m.ring + [e];
            var full := if |grown| > maxEvents then |grown| - maxEvents else 0;
            && t.journal == m.journal + [e] && t.lastSeq == m.lastSeq + 1 && t.inFlight == m.inFlight
            && full <= k <= |grown| && t.ring == grown[k..]
            && (forall i :: full <= i < k ==> cutoff.Some? && grown[i].stamp < cutoff.value)
            && (k < |grown| && cutoff.Some? ==> cutoff.value <= grown[k].stamp)
  {
    var grown := m.ring + [Event(m.lastSeq + 1, uid, stamp, payload)];
    var full := if |grown| > maxEvents then |grown| - maxEvents else 0;
    assert Last(grown, maxEvents) == grown[full..];
    k := FreshDropsOld(grown, full, cutoff);
  }

  /** The entries of a journal whose number is above every number before it. */
  function Climbing(journal: seq<Event>): seq<Event> {
    if journal == [] then []
    else
      var init, e := journal[..|journal| - 1], journal[|journal| - 1];
      Climbing(init)
      + if e.seqNo > 0 && forall i :: 0 <= i < |init| ==> init[i].seqNo < e.seqNo then [e] else []
  }

  /** Whatever the journal holds, replay takes its climbing entries and counts on from the highest. */
  lemma {:induction false} ReplayTakesClimbing(journal: seq<Event>, maxEvents: nat)
    ensures var m := Replayed(journal, maxEvents);
            && m.ring == Last(Climbing(journal), maxEvents) && m.journal == journal && !m.inFlight
            && m.lastSeq >= 0 && (forall i :: 0 <= i < |journal| ==> journal[i].seqNo <= m.lastSeq)
            && (m.lastSeq > 0 ==> exists i :: 0 <= i < |journal| && journal[i].seqNo == m.lastSeq)
  {
    hide Last;
    if journal == [] {
      LastOfNothing(maxEvents);
    } else {
      var init, e := journal[..|journal| - 1], journal[|journal| - 1];
      ReplayTakesClimbing(init, maxEvents);
      LastOfLast(Climbing(init), e, maxEvents);
      var m := Replayed(init, maxEvents);
      if m.lastSeq > 0 {
        var i :| 0 <= i < |init| && init[i].seqNo == m.lastSeq;
        assert journal[i].seqNo == m.lastSeq;
      }
      assert e.seqNo > m.lastSeq <==> e.seqNo > 0 && forall i :: 0 <= i < |init| ==> init[i].seqNo < e.seqNo;
      assert Climbing(journal) == if e.seqNo > m.lastSeq then Climbing(init) + [e] else Climbing(init);
      assert journal[|init|].seqNo == e.seqNo;
      assert forall i :: 0 <= i < |init| ==> init[i] == journal[i];
    }
  }

  /** What every step of the memory keeps. */
  ghost predicate Sound(m: Memory, maxEvents: nat) {
    && IsSuffix(m.ring, m.journal) && |m.ring| <= maxEvents
    && Rising(m.journal) && UpTo(m.journal, m.lastSeq) && m.lastSeq >= 0
  }

  lemma RecordKeepsSound(m: Memory, maxEvents: nat, uid: nat, stamp: int, payload: string, cutoff: Option<int>)
    requires Sound(m, maxEvents)
    ensures Sound(Recorded(m, maxEvents, uid, stamp, payload, cutoff), maxEvents)
  {
    hide Fresh, Last, Rising, UpTo, IsSuffix;
    var e := Event(m.lastSeq + 1, uid, stamp, payload);
    RingAfterRecord(m.ring, m.journal, e, maxEvents, cutoff);
    AppendKeepsRising(m.journal, e, m.lastSeq);
  }

  lemma AppendKeepsRising(journal: seq<Event>, e: Event, lastSeq: int)
    requires Rising(journal) && UpTo(journal, lastSeq) && lastSeq >= 0 && e.seqNo == lastSeq + 1
    ensures Rising(journal + [e]) && UpTo(journal + [e], e.seqNo)
  {
  }

  lemma RingAfterRecord(ring: seq<Event>, journal: seq<Event>, e: Event, maxEvents: nat, cutoff: Option<int>)
    requires IsSuffix(ring, journal)
    ensures var after := Fresh(Last(ring + [e], maxEvents), cutoff);
            IsSuffix(after, ring + [e]) && IsSuffix(after, journal + [e]) && |after| <= maxEvents
  {
    var grown := Last(ring + [e], maxEvents);
    FreshIsSuffix(grown, cutoff);
    SuffixTransitive(Fresh(grown, cutoff), grown, ring + [e]);
    assert IsSuffix(ring + [e], journal + [e]);
    SuffixTransitive(Fresh(grown, cutoff), ring + [e], journal + [e]);
  }

  lemma SuffixTransitive(a: seq<Event>, b: seq<Event>, c: seq<Event>)
    requires IsSuffix(a, b) && IsSuffix(b, c)
    ensures IsSuffix(a, c)
  {
  }

  lemma SuffixKeepsRising(a: seq<Event>, b: seq<Event>, n: int)
    requires IsSuffix(a, b) && Rising(b) && UpTo(b, n)
    ensures Rising(a) && UpTo(a, n)
  {
    assert forall i :: 0 <= i < |a| ==> a[i] == b[|b| - |a| + i];
  }

  lemma DrainKeepsSound(m: Memory, maxEvents: nat)
    requires Sound(m, maxEvents)
    ensures Sound(Drained(m), maxEvents)
  {
    SuffixKeepsRising(m.ring, m.journal, m.lastSeq);
  }

  lemma AcknowledgeKeepsSound(m: Memory, maxEvents: nat)
    requires Sound(m, maxEvents)
    ensures Sound(Acknowledged(m), maxEvents)
  {
    SuffixKeepsRising(m.ring, m.journal, m.lastSeq);
  }

  /** Replay restores exactly the last `maxEvents` entries, and leaves the journal alone. */
  lemma {:induction false} ReplayYieldsTail(journal: seq<Event>, maxEvents: nat)
    requires Rising(journal) && maxEvents > 0
    ensures Replayed(journal, maxEvents)
            == Memory(Last(journal, maxEvents), journal,
                      if journal == [] then 0 else journal[|journal| - 1].seqNo, false)
  {
    hide Last, Rising;
    if journal == [] {
      LastOfNothing(maxEvents);
    } else {
      var init, e := journal[..|journal| - 1], journal[|journal| - 1];
      RisingInit(journal);
      ReplayYieldsTail(init, maxEvents);
      assert journal == init + [e];
      LastOfLast(init, e, maxEvents);
    }
  }

  lemma LastOfNothing(n: nat)
    ensures Last<Event>([], n) == []
  {
  }

  lemma RisingInit(s: seq<Event>)
    requires Rising(s) && s != []
    ensures Rising(s[..|s| - 1]) && s[|s| - 1].seqNo > 0
    ensures |s| > 1 ==> s[|s| - 2].seqNo < s[|s| - 1].seqNo
  {
  }

  lemma ReplayKeepsSound(journal: seq<Event>, maxEvents: nat)
    requires Rising(journal) && maxEvents > 0
    ensures Sound(Replayed(journal, maxEvents), maxEvents)
  {
    hide Replayed;
    ReplayYieldsTail(journal, maxEvents);
    LastIsSuffix(journal, maxEvents);
  }

  lemma LastIsSuffix(s: seq<Event>, n: nat)
    ensures IsSuffix(Last(s, n), s) && |Last(s, n)| <= n
  {
  }

  class EpisodicMemory {
    const maxEvents: nat
    var events: seq<Event>
    var journal: seq<Event>
    var lastSeq: int
    var batchInFlight: bool

    ghost function State(): Memory
      reads this
    {
      Memory(events, journal, lastSeq, batchInFlight)
    }

    /** Opens the memory over what the journal file holds. */
    constructor (maxEvents: int, onDisk: seq<Event>)
      ensures this.maxEvents == if maxEvents < 1 then 1 else maxEvents
      ensures State() == Replayed(onDisk, this.maxEvents)
    {
      this.maxEvents := if maxEvents < 1 then 1 else maxEvents;
      events, journal, lastSeq, batchInFlight := [], onDisk, 0, false;
      new;
      var i := 0;
      while i < |onDisk|
        invariant 0 <= i <= |onDisk|
        invariant journal == onDisk && !batchInFlight
        invariant Memory(events, onDisk[..i], lastSeq, false) == Replayed(onDisk[..i], this.maxEvents)
      {
        assert onDisk[..i + 1][..i] == onDisk[..i];
        var event := onDisk[i];
        if event.seqNo > lastSeq {
          lastSeq := event.seqNo;
          events := Last(events + [event], this.maxEvents);
        }
        i := i + 1;
      }
      assert onDisk[..i] == onDisk;
    }

    method Record(uid: nat, stamp: int, payload: string, cutoff: Option<int>) returns (event: Event)
      modifies this`events, this`journal, this`lastSeq
      ensures State() == Recorded(old(State()), maxEvents, uid, stamp, payload, cutoff)
      ensures journal == old(journal) + [event] && lastSeq == old(lastSeq) + 1
      ensures event == Event(lastSeq, uid, stamp, payload)
    {
      hide Last;
      lastSeq := lastSeq + 1;
      event := Event(lastSeq, uid, stamp, payload);
      journal := journal + [event];
      events := Last(events + [event], maxEvents);
      while events != [] && cutoff.Some? && events[0].stamp < cutoff.value
        modifies this`events
        invariant Fresh(events, cutoff) == Fresh(Last(old(events) + [event], maxEvents), cutoff)
        decreases |events|
      {
        events := events[1..];
      }
    }

    method Drain() returns (batch: seq<Event>)
      modifies this`events, this`journal, this`batchInFlight
      ensures batch == old(events) && State() == Drained(old(State()))
      ensures events == [] && journal == (if old(batchInFlight) then old(journal) else batch)
      ensures batchInFlight <==> batch != []
    {
      if !batchInFlight {
        journal := events;
      }
      batch := events;
      events := [];
      batchInFlight := batch != [];
    }

    method MarkConsolidated()
      modifies this`journal, this`batchInFlight
      ensures State() == Acknowledged(old(State()))
      ensures journal == events && !batchInFlight
    {
      batchInFlight := false;
      journal := events;
    }
  }

  // ---- consolidation runs, with crashes ----

  /** `batch` is what a consolidation has drained and not yet stored. `failed` holds the
      recordings a failed consolidation dropped since the last start. */
  datatype Agent = Agent(mem: Memory, busy: bool, batch: seq<Event>, recorded: set<nat>,
                         stored: set<nat>, evicted: set<nat>, failed: set<nat>)

  datatype Step =
    | Record(uid: nat, stamp: int, payload: string, cutoff: Option<int>)
    | Drain
    | Store
    | Fail(done: set<nat>)
    | Acknowledge
    | Restart

  function Ids(s: seq<Event>): set<nat> {
    set e | e in s :: e.uid
  }

  ghost predicate Next(maxEvents: nat, s: Agent, st: Step, t: Agent) {
    match st
    case Record(uid, stamp, payload, cutoff) =>
      && uid !in s.recorded
      && var m := Recorded(s.mem, maxEvents, uid, stamp, payload, cutoff);
         t == s.(mem := m, recorded := s.recorded + {uid},
                 evicted := s.evicted + (Ids(s.mem.ring) + {uid} - Ids(m.ring)))
    case Drain => !s.busy && t == s.(mem := Drained(s.mem), busy := true, batch := s.mem.ring)
    case Store => s.busy && t == s.(stored := s.stored + Ids(s.batch), batch := [])
    case Fail(done) =>
      && s.busy && done <= Ids(s.batch)
      && t == s.(busy := false, batch := [], stored := s.stored + done,
                 failed := s.failed + (Ids(s.batch) - done - s.stored - s.evicted))
    case Acknowledge => s.busy && s.batch == [] && t == s.(mem := Acknowledged(s.mem), busy := false)
    case Restart =>
      var m := Replayed(s.mem.journal, maxEvents);
      t == s.(mem := m, busy := false, batch := [], failed := {},
              evicted := s.evicted + (Ids(s.mem.journal) - Ids(m.ring)))
  }

  /** The promise: every recording is stored, still in the journal, or was evicted. */
  ghost predicate AllAccounted(s: Agent) {
    s.recorded <= s.stored + Ids(s.mem.journal) + s.evicted
  }

  /** How the recordings are spread: over what is in the journal, the ring and the batch in
      hand, and what has been stored, evicted or dropped by a failed consolidation. */
  ghost predicate Spread(journal: set<nat>, ring: set<nat>, batch: set<nat>, recorded: set<nat>,
                         stored: set<nat>, evicted: set<nat>, failed: set<nat>)
  {
    && recorded <= stored + journal + evicted
    && journal <= recorded && batch <= recorded && failed <= recorded
    && journal <= ring + stored + evicted + batch + failed
    && batch !! ring && failed !! ring && failed !! batch && failed !! stored && failed !! evicted
  }

  ghost predicate Kept(s: Agent, maxEvents: nat) {
    && Sound(s.mem, maxEvents) && (!s.busy ==> s.batch == [])
    && Spread(Ids(s.mem.journal), Ids(s.mem.ring), Ids(s.batch), s.recorded, s.stored, s.evicted, s.failed)
  }

  /** The steps that rewrite the journal to what the ring holds. */
  predicate Compacts(s: Agent, st: Step) {
    st.Acknowledge? || (st.Drain? && !s.mem.inFlight)
  }

  lemma IdsConcat(a: seq<Event>, b: seq<Event>)
    ensures Ids(a + b) == Ids(a) + Ids(b)
  {
    forall e | e in a || e in b ensures e in a + b {
    }
  }

  lemma IdsOfSuffix(a: seq<Event>, b: seq<Event>)
    requires IsSuffix(a, b)
    ensures Ids(a) <= Ids(b)
  {
  }

  lemma StepKeepsSound(maxEvents: nat, s: Agent, st: Step, t: Agent)
    requires Sound(s.mem, maxEvents) && maxEvents > 0 && Next(maxEvents, s, st, t)
    ensures Sound(t.mem, maxEvents)
  {
    match st
    case Record(uid, stamp, payload, cutoff) => RecordKeepsSound(s.mem, maxEvents, uid, stamp, payload, cutoff);
    case Drain => DrainKeepsSound(s.mem, maxEvents);
    case Acknowledge => AcknowledgeKeepsSound(s.mem, maxEvents);
    case Restart => ReplayKeepsSound(s.mem.journal, maxEvents);
    case _ =>
  }

  lemma RecordingKeeps(maxEvents: nat, s: Agent, st: Step, t: Agent)
    requires Kept(s, maxEvents) && maxEvents > 0 && Next(maxEvents, s, st, t) && st.Record?
    ensures Kept(t, maxEvents)
  {
    StepKeepsSound(maxEvents, s, st, t);
    RecordedIds(s.mem, maxEvents, st.uid, st.stamp, st.payload, st.cutoff);
  }

  lemma RecordedIds(m: Memory, maxEvents: nat, uid: nat, stamp: int, payload: string, cutoff: Option<int>)
    requires Sound(m, maxEvents)
    ensures var r := Recorded(m, maxEvents, uid, stamp, payload, cutoff);
            && Ids(r.journal) == Ids(m.journal) + {uid}
            && Ids(r.ring) <= Ids(m.ring) + {uid} && Ids(m.ring) <= Ids(m.journal)
  {
    hide Fresh, Last, Rising, UpTo, IsSuffix, Ids;
    var e := Event(m.lastSeq + 1, uid, stamp, payload);
    RingAfterRecord(m.ring, m.journal, e, maxEvents, cutoff);
    IdsAfterAppend(m.ring, m.journal, e, Fresh(Last(m.ring + [e], maxEvents), cutoff));
  }

  lemma IdsAfterAppend(ring: seq<Event>, journal: seq<Event>, e: Event, after: seq<Event>)
    requires IsSuffix(ring, journal) && IsSuffix(after, ring + [e])
    ensures Ids(journal + [e]) == Ids(journal) + {e.uid}
    ensures Ids(after) <= Ids(ring) + {e.uid} && Ids(ring) <= Ids(journal)
  {
    assert Ids([e]) == {e.uid};
    IdsConcat(journal, [e]);
    IdsConcat(ring, [e]);
    IdsOfSuffix(after, ring + [e]);
    IdsOfSuffix(ring, journal);
  }

  lemma RestartKeeps(maxEvents: nat, s: Agent, st: Step, t: Agent)
    requires Kept(s, maxEvents) && maxEvents > 0 && Next(maxEvents, s, st, t) && st.Restart?
    ensures Kept(t, maxEvents)
  {
    StepKeepsSound(maxEvents, s, st, t);
    ReplayYieldsTail(s.mem.journal, maxEvents);
    IdsOfSuffix(t.mem.ring, t.mem.journal);
  }

  /** A step loses a recording exactly when it compacts the journal while a failed batch is
      waiting in it for a restart; and then it loses exactly what is waiting. */
  lemma StepLosesNothingIff(maxEvents: nat, s: Agent, st: Step, t: Agent)
    requires Kept(s, maxEvents) && maxEvents > 0 && Next(maxEvents, s, st, t)
    ensures AllAccounted(t) <==> !(Compacts(s, st) && s.failed != {})
    ensures AllAccounted(t) ==> Kept(t, maxEvents)
    ensures Compacts(s, st) ==> t.recorded - (t.stored + Ids(t.mem.journal) + t.evicted) == s.failed
  {
    match st
    case Record(_, _, _, _) => RecordingKeeps(maxEvents, s, st, t);
    case Restart => RestartKeeps(maxEvents, s, st, t);
    case _ => ConsolidationLoses(maxEvents, s, st, t);
  }

  lemma ConsolidationLoses(maxEvents: nat, s: Agent, st: Step, t: Agent)
    requires Kept(s, maxEvents) && maxEvents > 0 && Next(maxEvents, s, st, t)
    requires st.Drain? || st.Store? || st.Fail? || st.Acknowledge?
    ensures AllAccounted(t) <==> !(Compacts(s, st) && s.failed != {})
    ensures AllAccounted(t) ==> Kept(t, maxEvents)
    ensures Compacts(s, st) ==> t.recorded - (t.stored + Ids(t.mem.journal) + t.evicted) == s.failed
  {
    if Compacts(s, st) {
      CompactionLoses(maxEvents, s, st, t);
    }
    if !Compacts(s, st) || s.failed == {} {
      ConsolidationKeeps(maxEvents, s, st, t);
    }
  }

  lemma CompactionLoses(maxEvents: nat, s: Agent, st: Step, t: Agent)
    requires Kept(s, maxEvents) && Next(maxEvents, s, st, t) && Compacts(s, st)
    ensures t.recorded - (t.stored + Ids(t.mem.journal) + t.evicted) == s.failed
    ensures AllAccounted(t) ==> s.failed == {}
  {
    assert t.mem.journal == s.mem.ring && Ids(s.batch) == {};
    SetsAfterCompaction(s.recorded, Ids(s.mem.journal), Ids(s.mem.ring), s.stored, s.evicted, s.failed);
  }

  lemma SetsAfterCompaction(recorded: set<nat>, journal: set<nat>, ring: set<nat>, stored: set<nat>,
                            evicted: set<nat>, failed: set<nat>)
    requires recorded <= stored + journal + evicted && journal <= ring + stored + evicted + failed
    requires failed <= recorded && failed !! ring && failed !! stored && failed !! evicted
    ensures recorded - (stored + ring + evicted) == failed
    ensures recorded <= stored + ring + evicted <==> failed == {}
  {
    var lost := recorded - (stored + ring + evicted);
    assert lost == failed;
    if failed != {} {
      var x :| x in failed;
      assert x in recorded && x !in stored + ring + evicted;
    }
  }

  lemma NoIds()
    ensures Ids([]) == {}
  {
  }

  lemma ConsolidationKeeps(maxEvents: nat, s: Agent, st: Step, t: Agent)
    requires Kept(s, maxEvents) && maxEvents > 0 && Next(maxEvents, s, st, t)
    requires st.Drain? || st.Store? || st.Fail? || st.Acknowledge?
    requires !Compacts(s, st) || s.failed == {}
    ensures Kept(t, maxEvents)
  {
    hide Ids, Last, IsSuffix, Rising, UpTo;
    StepKeepsSound(maxEvents, s, st, t);
    var journal, ring, batch := Ids(s.mem.journal), Ids(s.mem.ring), Ids(s.batch);
    IdsOfSuffix(s.mem.ring, s.mem.journal);
    NoIds();
    if Compacts(s, st) {
      SetsAfterCompaction(s.recorded, journal, ring, s.stored, s.evicted, s.failed);
    }
    match st
    case Drain =>
      assert Spread(if s.mem.inFlight then journal else ring, {}, ring, s.recorded, s.stored, s.evicted, s.failed);
    case Store =>
      assert Spread(journal, ring, {}, s.recorded, s.stored + batch, s.evicted, s.failed);
    case Fail(done) =>
      assert Spread(journal, ring, {}, s.recorded, s.stored + done, s.evicted,
                    s.failed + (batch - done - s.stored - s.evicted));
    case Acknowledge =>
      assert Spread(ring, ring, {}, s.recorded, s.stored, s.evicted, s.failed);
  }

  // ---- the discipline under which nothing is ever lost ----

  /** A consolidation has failed and the process has not restarted since. */
  predicate Dirty(steps: seq<Step>) {
    steps != []
    && var last := steps[|steps| - 1];
       last.Fail? || (!last.Restart? && Dirty(steps[..|steps| - 1]))
  }

  lemma {:induction false} DirtyIff(steps: seq<Step>)
    ensures Dirty(steps) <==>
              exists k {:trigger steps[k]} :: 0 <= k < |steps| && steps[k].Fail?
                          && forall l {:trigger steps[l]} :: k < l < |steps| ==> !steps[l].Restart?
  {
    if steps != [] {
      var init, n := steps[..|steps| - 1], |steps| - 1;
      DirtyIff(init);
      assert forall k :: 0 <= k < n ==> init[k] == steps[k];
      if steps[n].Fail? {
        assert Dirty(steps);
      }
    }
  }

  ghost predicate Run(maxEvents: nat, states: seq<Agent>, steps: seq<Step>) {
    && |states| == |steps| + 1
    && states[0] == Agent(Memory([], [], 0, false), false, [], {}, {}, {}, {})
    && forall i {:trigger steps[i]} :: 0 <= i < |steps| ==> Next(maxEvents, states[i], steps[i], states[i + 1])
  }

  /** In every reachable state the ring is a suffix of the journal and numbers rise. */
  lemma {:induction false} ReachableIsSound(maxEvents: nat, states: seq<Agent>, steps: seq<Step>, i: nat)
    requires Run(maxEvents, states, steps) && i <= |steps| && maxEvents > 0
    ensures Sound(states[i].mem, maxEvents)
  {
    if i > 0 {
      ReachableIsSound(maxEvents, states, steps, i - 1);
      StepKeepsSound(maxEvents, states[i - 1], steps[i - 1], states[i]);
    }
  }

  lemma FreshIsKept(maxEvents: nat)
    ensures Kept(Agent(Memory([], [], 0, false), false, [], {}, {}, {}, {}), maxEvents)
  {
    NoIds();
  }

  lemma FailuresAfter(maxEvents: nat, s: Agent, st: Step, t: Agent)
    requires Next(maxEvents, s, st, t)
    ensures st.Restart? ==> t.failed == {} && !t.busy
    ensures st.Fail? ==> !t.busy
    ensures !st.Fail? && s.failed == {} ==> t.failed == {}
    ensures t.busy ==> s.busy || st.Drain?
    ensures st.Acknowledge? ==> s.busy
  {
  }

  /** If no consolidation starts after a failed one until the process restarts, then in
      every reachable state every recording is accounted for. */
  lemma {:induction false} NothingIsLost(maxEvents: nat, states: seq<Agent>, steps: seq<Step>, i: nat)
    requires Run(maxEvents, states, steps) && i <= |steps| && maxEvents > 0
    requires forall k {:trigger steps[k]} :: 0 <= k < |steps| && steps[k].Drain? ==> !Dirty(steps[..k])
    ensures Kept(states[i], maxEvents)
    ensures !Dirty(steps[..i]) ==> states[i].failed == {}
    ensures states[i].busy ==> !Dirty(steps[..i])
  {
    hide Next, Kept, AllAccounted;
    if i == 0 {
      FreshIsKept(maxEvents);
    } else {
      NothingIsLost(maxEvents, states, steps, i - 1);
      assert steps[..i][..i - 1] == steps[..i - 1] && steps[..i][i - 1] == steps[i - 1];
      FailuresAfter(maxEvents, states[i - 1], steps[i - 1], states[i]);
      StepLosesNothingIff(maxEvents, states[i - 1], steps[i - 1], states[i]);
    }
  }

  lemma FirstRecording()
    ensures var e := Event(1, 0, 0, "fall");
            Recorded(Memory([], [], 0, false), 1000, 0, 0, "fall", None) == Memory([e], [e], 1, false)
  {
  }

  /** Without the restart: a batch fails, an empty consolidation succeeds, and the recording
      is gone from the journal without having been stored or evicted. */
  lemma FailureWithoutRestartLoses() returns (states: seq<Agent>, steps: seq<Step>)
    ensures Run(1000, states, steps) && !AllAccounted(states[|steps|])
  {
    hide Recorded, Replayed;
    var s0 := Agent(Memory([], [], 0, false), false, [], {}, {}, {}, {});
    var e := Event(1, 0, 0, "fall");
    var s1 := Agent(Memory([e], [e], 1, false), false, [], {0}, {}, {}, {});
    var s2 := Agent(Memory([], [e], 1, true), true, [e], {0}, {}, {}, {});
    var s3 := s2.(busy := false, batch := [], failed := {0});
    var s4 := s3.(mem := Memory([], [e], 1, false), busy := true);
    var s5 := s4.(mem := Memory([], [], 1, false), busy := false);
    states := [s0, s1, s2, s3, s4, s5];
    steps := [Record(0, 0, "fall", None), Drain, Fail({}), Drain, Acknowledge];
    assert Ids([e]) == {0} && Ids([]) == {};
    FirstRecording();
    assert Next(1000, s0, steps[0], s1);
    assert Next(1000, s1, steps[1], s2);
    assert Next(1000, s2, steps[2], s3);
    assert Next(1000, s3, steps[3], s4);
    assert Next(1000, s4, steps[4], s5);
  }
}
