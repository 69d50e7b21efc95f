/** The store and the sync call as the runtime keeps them, and whole runs of a sharing fleet. */
module MemoryMesh {
  import opened Options
  import opened FactSync
  import opened SyncWire

  class SemanticMemory {
    var rows: seq<Row>

    constructor ()
      ensures rows == []
    {
      rows := [];
    }

    method StoreFact(content: string, now: int)
      modifies this
      ensures rows == Stored(old(rows), content, now) == old(rows) + [Row(Clip(content), now)]
    {
      rows := rows + [Row(Clip(content), now)];
    }

    method ContentExists(content: string) returns (found: bool)
      ensures found == Holds(rows, Clip(content))
    {
      var text := Clip(content);
      var i := 0;
      while i < |rows| && rows[i].content != text
        invariant 0 <= i <= |rows|
        invariant forall k :: 0 <= k < i ==> rows[k].content != text
      {
        i := i + 1;
      }
      found := i < |rows|;
    }

    /** Merges a peer's facts; `clock(i)` is the time at which fact `i` is stored. */
    method ImportSharedFacts(batch: seq<Wire>, clock: int -> int)
      returns (imported: nat, skipped: nat, duplicates: nat)
      modifies this
      ensures Merge(rows, imported, skipped, duplicates) == MergeAll(old(rows), batch, clock)
      ensures skipped == EmptyIn(batch) && duplicates == RepeatsIn(old(rows), batch)
      ensures rows == old(rows) + NewIn(old(rows), batch, clock) && imported == |NewIn(old(rows), batch, clock)|
    {
      imported, skipped, duplicates := 0, 0, 0;
      var i := 0;
      while i < |batch|
        invariant 0 <= i <= |batch|
        invariant Merge(rows, imported, skipped, duplicates) == MergeAll(old(rows), batch[..i], clock)
      {
        assert batch[..i + 1][..i] == batch[..i];
        var fact := batch[i];
        if fact.NotADict? {
          skipped := skipped + 1;
        } else {
          var content := Clip(fact.content);
          if content == "" {
            skipped := skipped + 1;
          } else {
            var known := ContentExists(content);
            if known {
              duplicates := duplicates + 1;
            } else {
              StoreFact(content, clock(i));
              imported := imported + 1;
            }
          }
        }
        i := i + 1;
      }
      assert batch[..i] == batch;
      ImportCounts(old(rows), batch, clock);
    }
  }

  datatype SyncResult = Unreachable | PeerError | Synchronised(received: nat, imported: nat, duplicates: nat)

  class AgentRuntime {
    const memory: SemanticMemory
    const maxFrame: nat
    var watermarks: map<string, int>

    constructor (memory: SemanticMemory, maxFrame: int)
      ensures this.memory == memory && watermarks == map[]
      ensures this.maxFrame == if maxFrame < 1024 then 1024 else maxFrame
    {
      this.memory := memory;
      this.maxFrame := if maxFrame < 1024 then 1024 else maxFrame;
      watermarks := map[];
    }

    ghost function Known(peer: string): Option<int>
      reads this
    {
      if peer in watermarks then Some(watermarks[peer]) else None
    }

    /** Pulls from `remote`. `since` overrides the stored watermark; `connected` and `refused` say
        how far the request gets; `r` is how the reply travels; `writable` says whether the local
        store takes imports at all (a refused write is caught and counted as zero). */
    method Sync(peer: string, remote: SemanticMemory, since: Option<int>, connected: bool, refused: bool,
                writable: bool, r: Round) returns (result: SyncResult)
      requires remote != memory
      modifies this`watermarks, memory
      ensures !connected || r.short > maxFrame ==> result == Unreachable
      ensures connected && r.short <= maxFrame && refused ==> result == PeerError
      ensures !connected || r.short > maxFrame || refused ==>
                watermarks == old(watermarks) && memory.rows == old(memory.rows)
      ensures connected && r.short <= maxFrame && !refused ==>
                var from := if since.Some? then since else old(Known(peer));
                var batch := Export(remote.rows, from, EXPORT_LIMIT);
                var after := Synced(Puller(old(memory.rows), from), remote.rows, writable, r.clock);
                var counted := if writable then MergeAll(old(memory.rows), OnWire(batch), r.clock)
                               else Merge(old(memory.rows), 0, 0, 0);
                && memory.rows == after.rows
                && watermarks == (if batch == [] then old(watermarks)
                                  else old(watermarks)[peer := after.watermark.value])
                && result == Synchronised(|batch|, counted.imported, counted.duplicates)
                && result.imported == |memory.rows| - |old(memory.rows)|
                && result.duplicates == (if writable then RepeatsIn(old(memory.rows), OnWire(batch)) else 0)
    {
      hide MergeAll, RepeatsIn, NewIn, EmptyIn, Export, OnWire;
      if !connected || r.short > maxFrame {
        return Unreachable;
      }
      if refused {
        return PeerError;
      }
      var watermark := if since.Some? then since else if peer in watermarks then Some(watermarks[peer]) else None;
      var facts := Export(remote.rows, watermark, EXPORT_LIMIT);
      var imported, skipped, duplicates := 0, 0, 0;
      if writable {
        ImportIsUnion(memory.rows, OnWire(facts), r.clock, "");
        ImportCounts(memory.rows, OnWire(facts), r.clock);
        imported, skipped, duplicates := memory.ImportSharedFacts(OnWire(facts), r.clock);
      }
      if facts != [] {
        watermarks := watermarks[peer := facts[|facts| - 1].created];
      }
      result := Synchronised(|facts|, imported, duplicates);
    }
  }

  // ---- runs of a fleet ----

  /** A pull whose reply does not arrive changes nothing and is not listed. */
  datatype Action =
    | Store(node: string, content: string, now: int)
    | Pull(node: string, from: string, since: Option<int>, writable: bool, clock: int -> int)

  /** Every node's rows, and each node's watermark for each peer. */
  datatype Fleet = Fleet(rows: map<string, seq<Row>>, marks: map<(string, string), int>)

  function RowsOf(f: Fleet, node: string): seq<Row> {
    if node in f.rows then f.rows[node] else []
  }

  function MarkOf(f: Fleet, node: string, peer: string): Option<int> {
    if (node, peer) in f.marks then Some(f.marks[(node, peer)]) else None
  }

  /** What `node` has of `peer` and where its next pull starts. */
  function PullerOf(f: Fleet, node: string, peer: string): Puller {
    Puller(RowsOf(f, node), MarkOf(f, node, peer))
  }

  /** Where a pull starts: at the override, else at the watermark. */
  function StartOf(f: Fleet, a: Action): Option<int>
    requires a.Pull?
  {
    if a.since.Some? then a.since else MarkOf(f, a.node, a.from)
  }

  function BatchOf(f: Fleet, a: Action): seq<Row>
    requires a.Pull?
  {
    Export(RowsOf(f, a.from), StartOf(f, a), EXPORT_LIMIT)
  }

  function Applied(f: Fleet, a: Action): Fleet {
    match a
    case Store(n, c, now) => f.(rows := f.rows[n := Stored(RowsOf(f, n), c, now)])
    case Pull(n, from, _, writable, clock) =>
      var batch := BatchOf(f, a);
      Fleet(f.rows[n := Synced(Puller(RowsOf(f, n), StartOf(f, a)), RowsOf(f, from), writable, clock).rows],
            if batch == [] then f.marks else f.marks[(n, from) := batch[|batch| - 1].created])
  }

  /** What a pull does: up to 200 of the peer's rows after the override, or else after the watermark,
      are offered to the local store, and the watermark moves to the last of them. */
  lemma PullOverFields(f: Fleet, node: string, from: string, since: Option<int>, writable: bool, clock: int -> int)
    ensures var mine, theirs := RowsOf(f, node), RowsOf(f, from);
            var start := if since.Some? then since
                         else if (node, from) in f.marks then Some(f.marks[(node, from)]) else None;
            var pending := Pending(theirs, start);
            var batch := if |pending| > 200 then pending[..200] else pending;
            var t := Applied(f, Pull(node, from, since, writable, clock));
            && t.rows == f.rows[node := if writable then mine + NewIn(mine, OnWire(batch), clock) else mine]
            && t.marks == if batch == [] then f.marks else f.marks[(node, from) := batch[|batch| - 1].created]
  {
    hide Pending, NewIn, OnWire, Synced, Export;
    var start := StartOf(f, Pull(node, from, since, writable, clock));
    SyncOverFields(Puller(RowsOf(f, node), start), RowsOf(f, from), writable, clock);
  }

  /** The fleet after a run, earliest action first, from empty stores. */
  function After(run: seq<Action>): Fleet {
    if run == [] then Fleet(map[], map[]) else Applied(After(run[..|run| - 1]), run[|run| - 1])
  }

  function LocalStores(run: seq<Action>, node: string, content: string): nat {
    if run == [] then 0
    else
      var a := run[|run| - 1];
      LocalStores(run[..|run| - 1], node, content)
      + if a.Store? && a.node == node && Clip(a.content) == content then 1 else 0
  }

  /** Over any interleaving of stores and syncs, everything a node holds beyond what was
      stored locally is at most one row per content: no sync ever adds a second one. */
  lemma {:induction false} SyncsNeverDuplicate(run: seq<Action>, node: string, content: string)
    ensures Count(RowsOf(After(run), node), content) <= LocalStores(run, node, content) + 1
    ensures LocalStores(run, node, content) <= Count(RowsOf(After(run), node), content)
  {
    if run != [] {
      var f, a := After(run[..|run| - 1]), run[|run| - 1];
      SyncsNeverDuplicate(run[..|run| - 1], node, content);
      if a.Pull? && a.node == node {
        ImportIsUnion(RowsOf(f, node), OnWire(BatchOf(f, a)), a.clock, content);
      } else if a.Store? && a.node == node {
        var rows := RowsOf(f, node);
        assert Stored(rows, a.content, a.now)[..|rows|] == rows;
      }
    }
  }

  ghost predicate Origin(run: seq<Action>, content: string) {
    exists i :: 0 <= i < |run| && run[i].Store? && Key(run[i].content) == Key(content)
  }

  /** Nothing is invented in transit: whatever any node holds was stored by some node, up to
      the clean-up that import applies. */
  lemma {:induction false} ContentHasAnOrigin(run: seq<Action>, node: string, content: string)
    requires Holds(RowsOf(After(run), node), content)
    ensures Origin(run, content)
  {
    if run != [] {
      var init, a := run[..|run| - 1], run[|run| - 1];
      var f := After(init);
      if Holds(RowsOf(f, node), content) {
        ContentHasAnOrigin(init, node, content);
        OriginLasts(run, content);
      } else if a.Store? {
        HoldsGrows(RowsOf(f, node), Row(Clip(a.content), a.now), content);
        KeyIsFinal(a.content);
        assert run[|run| - 1].Store?;
      } else {
        PullOrigin(f, a, content);
        var batch := BatchOf(f, a);
        var k :| 0 <= k < |batch| && Key(batch[k].content) == content;
        PendingMembers(RowsOf(f, a.from), StartOf(f, a), batch[k]);
        assert batch[k] in Pending(RowsOf(f, a.from), StartOf(f, a));
        assert Holds(RowsOf(f, a.from), batch[k].content);
        ContentHasAnOrigin(init, a.from, batch[k].content);
        KeyIsFinal(batch[k].content);
        OriginLasts(run, content);
      }
    }
  }

  lemma PullOrigin(f: Fleet, a: Action, content: string)
    requires a.Pull? && !Holds(RowsOf(f, a.node), content) && Holds(RowsOf(Applied(f, a), a.node), content)
    ensures exists k :: 0 <= k < |BatchOf(f, a)| && Key(BatchOf(f, a)[k].content) == content
  {
    var batch := BatchOf(f, a);
    ImportIsUnion(RowsOf(f, a.node), OnWire(batch), a.clock, content);
    assert Offers(OnWire(batch), content);
    var k :| 0 <= k < |batch| && OnWire(batch)[k].Fact? && Key(OnWire(batch)[k].content) == content;
    assert Key(batch[k].content) == content;
  }

  lemma OriginLasts(run: seq<Action>, content: string)
    requires run != []
    ensures Origin(run[..|run| - 1], content) ==> Origin(run, content)
  {
    var init := run[..|run| - 1];
    if Origin(init, content) {
      var i :| 0 <= i < |init| && init[i].Store? && Key(init[i].content) == Key(content);
      assert run[i] == init[i];
    }
  }

  // ---- convergence over any interleaving ----

  /** `node` pulls from `peer` only into a writable store and from its own watermark. */
  ghost predicate PullsPlainly(run: seq<Action>, node: string, peer: string) {
    forall i {:trigger run[i]} :: 0 <= i < |run| && run[i].Pull? && run[i].node == node && run[i].from == peer ==>
      run[i].writable && run[i].since.None?
  }

  lemma PrefixPullsPlainly(run: seq<Action>, node: string, peer: string)
    requires run != [] && PullsPlainly(run, node, peer)
    ensures PullsPlainly(run[..|run| - 1], node, peer)
  {
    forall i | 0 <= i < |run| - 1 ensures run[..|run| - 1][i] == run[i] {
    }
  }

  /** Stores only grow. */
  lemma RowsGrow(f: Fleet, a: Action, node: string)
    ensures RowsOf(f, node) <= RowsOf(Applied(f, a), node)
  {
    if a.Pull? && a.node == node {
      ImportIsUnion(RowsOf(f, node), OnWire(BatchOf(f, a)), a.clock, "");
    }
  }

  /** The watermark is a stamp of the peer's, and everything up to it is held. */
  ghost predicate Tracks(f: Fleet, node: string, peer: string) {
    && Covered(PullerOf(f, node, peer), RowsOf(f, peer))
    && (MarkOf(f, node, peer).Some? ==> exists r :: r in RowsOf(f, peer) && r.created == MarkOf(f, node, peer).value)
  }

  /** In every run of stores and syncs by any nodes, while the peer's stamps rise, whatever a
      node's watermark for it has passed is held. */
  lemma {:induction false} EveryPairIsCovered(run: seq<Action>, node: string, peer: string)
    requires node != peer && PullsPlainly(run, node, peer)
    requires DistinctStamps(RowsOf(After(run), peer))
    ensures Tracks(After(run), node, peer)
  {
    if run != [] {
      var f, a := After(run[..|run| - 1]), run[|run| - 1];
      RowsGrow(f, a, peer);
      RowsGrow(f, a, node);
      PrefixPullsPlainly(run, node, peer);
      PrefixStampsRise(RowsOf(f, peer), RowsOf(Applied(f, a), peer));
      EveryPairIsCovered(run[..|run| - 1], node, peer);
      if a.Pull? && a.node == node && a.from == peer {
        PullKeepsTracking(f, a);
      } else {
        OthersKeepTracking(f, a, node, peer);
      }
    }
  }

  lemma PrefixStampsRise(s: seq<Row>, t: seq<Row>)
    requires s <= t && DistinctStamps(t)
    ensures DistinctStamps(s)
  {
  }

  lemma PullKeepsTracking(f: Fleet, a: Action)
    requires a.Pull? && a.node != a.from && a.writable && a.since.None?
    requires Tracks(f, a.node, a.from) && DistinctStamps(RowsOf(f, a.from))
    ensures Tracks(Applied(f, a), a.node, a.from)
    ensures RowsOf(Applied(f, a), a.from) == RowsOf(f, a.from)
    ensures PullerOf(Applied(f, a), a.node, a.from)
            == Synced(PullerOf(f, a.node, a.from), RowsOf(f, a.from), true, a.clock)
  {
    var p, rows := PullerOf(f, a.node, a.from), RowsOf(f, a.from);
    SyncKeepsCoveredIff(p, rows, a.clock);
    DistinctArePending(rows, p.watermark);
    assert !CutsTie(p, rows);
    var batch := BatchOf(f, a);
    if batch != [] {
      var last := batch[|batch| - 1];
      assert last in Pending(rows, p.watermark);
      PendingMembers(rows, p.watermark, last);
    }
  }

  lemma OthersKeepTracking(f: Fleet, a: Action, node: string, peer: string)
    requires !(a.Pull? && a.node == node && a.from == peer)
    requires Tracks(f, node, peer) && RowsOf(f, node) <= RowsOf(Applied(f, a), node)
    requires RowsOf(f, peer) <= RowsOf(Applied(f, a), peer) && DistinctStamps(RowsOf(Applied(f, a), peer))
    ensures Tracks(Applied(f, a), node, peer)
  {
    var g := Applied(f, a);
    var p, q := PullerOf(f, node, peer), PullerOf(g, node, peer);
    var before, after := RowsOf(f, peer), RowsOf(g, peer);
    assert q.watermark == p.watermark;
    forall r | r in after && !Newer(r, q.watermark) ensures Settled(q, r) {
      var mark :| mark in before && mark.created == p.watermark.value;
      NotNewerIsOld(before, after, mark, r);
      if Clip(r.content) != "" {
        HoldsMore(p.rows, q.rows, Key(r.content));
      }
    }
  }

  lemma NotNewerIsOld(s: seq<Row>, t: seq<Row>, mark: Row, r: Row)
    requires s <= t && DistinctStamps(t) && mark in s && r in t && r.created <= mark.created
    ensures r in s
  {
    var i :| 0 <= i < |s| && s[i] == mark;
    var j :| 0 <= j < |t| && t[j] == r;
    assert t[i] == mark;
    assert j <= i;
    assert s[j] == r;
  }

  lemma HoldsMore(s: seq<Row>, t: seq<Row>, content: string)
    requires s <= t
    ensures Holds(s, content) ==> Holds(t, content)
  {
    if Holds(s, content) {
      var i :| 0 <= i < |s| && s[i].content == content;
      assert t[i] == s[i];
    }
  }

  function Pulls(node: string, peer: string, clocks: seq<int -> int>): seq<Action> {
    seq(|clocks|, i requires 0 <= i < |clocks| => Pull(node, peer, None, true, clocks[i]))
  }

  lemma {:induction false} PullsAreSyncs(run: seq<Action>, node: string, peer: string, clocks: seq<int -> int>)
    requires node != peer && Tracks(After(run), node, peer) && DistinctStamps(RowsOf(After(run), peer))
    ensures var f, g := After(run), After(run + Pulls(node, peer, clocks));
            && RowsOf(g, peer) == RowsOf(f, peer) && Tracks(g, node, peer)
            && PullerOf(g, node, peer) == SyncedTimes(PullerOf(f, node, peer), RowsOf(f, peer), clocks)
  {
    if clocks == [] {
      assert run + Pulls(node, peer, clocks) == run;
    } else {
      var init, last := clocks[..|clocks| - 1], Pull(node, peer, None, true, clocks[|clocks| - 1]);
      var all := run + Pulls(node, peer, clocks);
      assert all == run + Pulls(node, peer, init) + [last];
      assert all[..|all| - 1] == run + Pulls(node, peer, init);
      PullsAreSyncs(run, node, peer, init);
      PullKeepsTracking(After(run + Pulls(node, peer, init)), last);
    }
  }

  /** So after any run from empty stores in which the peer's stamps rise, enough arriving syncs
      bring the node everything the peer holds, and a further one has nothing to transfer. */
  lemma RunsConverge(run: seq<Action>, node: string, peer: string, clocks: seq<int -> int>)
    requires node != peer && PullsPlainly(run, node, peer)
    requires DistinctStamps(RowsOf(After(run), peer))
    requires |Pending(RowsOf(After(run), peer), MarkOf(After(run), node, peer))| <= |clocks| * EXPORT_LIMIT
    ensures var g := After(run + Pulls(node, peer, clocks));
            && RowsOf(g, peer) == RowsOf(After(run), peer)
            && Export(RowsOf(g, peer), MarkOf(g, node, peer), EXPORT_LIMIT) == []
            && forall r :: r in RowsOf(g, peer) ==> Settled(PullerOf(g, node, peer), r)
  {
    EveryPairIsCovered(run, node, peer);
    PullsAreSyncs(run, node, peer, clocks);
    RepeatedSyncsConverge(PullerOf(After(run), node, peer), RowsOf(After(run), peer), clocks);
  }
}
