/** A fleet of electing nodes over a network that loses, duplicates, delays and reorders
    advertisements, with nodes that restart and count from one again. */
module Fleet {
  import opened Options
  import opened Ranking
  import opened Election

  datatype Config = Config(priority: int, role: Role)

  /** `ticked` remembers who the candidates were at the node's last tick. */
  datatype Node = Node(table: Table, primary: Option<string>, leaseSince: real,
                       seqNo: nat, ticked: Option<set<string>>)

  datatype Fleet = Fleet(nodes: map<string, Node>, net: set<Advert>)

  datatype Step =
    | Beat(id: string, thermal: int, mem: int, paired: bool, at: real)
    | Deliver(to: string, advert: Advert, at: real)
    | Forget(id: string, peer: string, at: real)
    | Tick(id: string, at: real)
    | Restart(id: string, at: real)
    | Depart(id: string, at: real)

  const FRESH := Node(map[], None, 0.0, 0, None)

  function Own(cfg: map<string, Config>, s: Fleet, st: Step): Advert
    requires st.Beat? && st.id in cfg && st.id in s.nodes
  {
    var n := s.nodes[st.id];
    OwnAdvert(st.id, cfg[st.id].priority, cfg[st.id].role, st.thermal, st.mem, st.paired, n.primary, n.seqNo + 1)
  }

  ghost predicate Next(cfg: map<string, Config>, timeout: real, s: Fleet, st: Step, t: Fleet) {
    match st
    case Beat(id, _, _, _, at) =>
      && id in s.nodes && id in cfg && id != ""
      && var a := Own(cfg, s, st);
         var n := s.nodes[id];
         t == Fleet(s.nodes[id := n.(table := Observed(n.table, a, at), seqNo := n.seqNo + 1)], s.net + {a})
    case Deliver(to, a, at) =>
      && to in s.nodes && a in s.net && a.id != ""
      && var n := s.nodes[to];
         t == s.(nodes := s.nodes[to := n.(table := Observed(n.table, a, at))])
    case Forget(id, peer, _) =>
      && id in s.nodes
      && t == s.(nodes := s.nodes[id := s.nodes[id].(table := s.nodes[id].table - {peer})])
    case Tick(id, at) =>
      && id in s.nodes && id in t.nodes
      && var n := s.nodes[id];
         var w := t.nodes[id].primary;
         && Elects(n.table, at, timeout, w)
         && t == s.(nodes := s.nodes[id := n.(primary := w,
                                              leaseSince := if w == n.primary then n.leaseSince else at,
                                              ticked := Some(Candidates(n.table, at, timeout)))])
    case Restart(id, _) => id != "" && t == s.(nodes := s.nodes[id := FRESH])
    case Depart(id, _) => t == s.(nodes := s.nodes - {id})
  }

  function Candidates(table: Table, now: real, timeout: real): set<string> {
    set id | id in table && IsCandidate(table, id, now, timeout)
  }

  ghost predicate Run(cfg: map<string, Config>, timeout: real, states: seq<Fleet>, steps: seq<Step>) {
    && |states| == |steps| + 1
    && forall i {:trigger steps[i]} :: 0 <= i < |steps| ==> Next(cfg, timeout, states[i], steps[i], states[i + 1])
  }

  // ---- no two primaries that can see each other ----

  function ConfigRank(cfg: map<string, Config>, id: string): Rank
    requires id in cfg
  {
    Rank(cfg[id].role, cfg[id].priority, id)
  }

  ghost predicate TableRanked(cfg: map<string, Config>, table: Table) {
    WellKeyed(table) && forall id :: id in table ==> id in cfg && RankOf(table[id]) == ConfigRank(cfg, id)
  }

  ghost predicate AdvertRanked(cfg: map<string, Config>, a: Advert) {
    a.id in cfg && RankOf(Recorded(a, 0.0)) == ConfigRank(cfg, a.id)
  }

  ghost predicate LeadsIts(cfg: map<string, Config>, n: Node) {
    n.ticked.Some? && n.primary.Some? ==>
      && n.primary.value in n.ticked.value && n.primary.value in cfg
      && forall id :: id in n.ticked.value ==> id in cfg && Le(ConfigRank(cfg, n.primary.value), ConfigRank(cfg, id))
  }

  ghost predicate NodeCoherent(cfg: map<string, Config>, n: Node) {
    TableRanked(cfg, n.table) && LeadsIts(cfg, n)
  }

  ghost predicate Coherent(cfg: map<string, Config>, s: Fleet) {
    && (forall id :: id in s.nodes ==> NodeCoherent(cfg, s.nodes[id]))
    && forall a :: a in s.net ==> AdvertRanked(cfg, a)
  }

  lemma ObservingKeepsRanked(cfg: map<string, Config>, table: Table, a: Advert, at: real)
    requires TableRanked(cfg, table) && AdvertRanked(cfg, a) && a.id != ""
    ensures TableRanked(cfg, Observed(table, a, at))
  {
  }

  lemma TickingKeepsLeading(cfg: map<string, Config>, n: Node, w: Option<string>, since: real, at: real, timeout: real)
    requires TableRanked(cfg, n.table) && Elects(n.table, at, timeout, w)
    ensures LeadsIts(cfg, Node(n.table, w, since, n.seqNo, Some(Candidates(n.table, at, timeout))))
  {
    forall c | c in Candidates(n.table, at, timeout) && w.Some?
      ensures Le(ConfigRank(cfg, w.value), ConfigRank(cfg, c))
    {
      assert IsCandidate(n.table, c, at, timeout);
    }
  }

  /** The node a step changes is coherent afterwards; nothing else changes. */
  lemma StepKeepsCoherent(cfg: map<string, Config>, timeout: real, s: Fleet, st: Step, t: Fleet)
    requires Coherent(cfg, s) && Next(cfg, timeout, s, st, t)
    ensures Coherent(cfg, t)
  {
    var who := if st.Deliver? then st.to else st.id;
    if who in s.nodes {
      assert NodeCoherent(cfg, s.nodes[who]);
    }
    match st
    case Beat(id, _, _, _, at) =>
      ObservingKeepsRanked(cfg, s.nodes[id].table, Own(cfg, s, st), at);
      assert NodeCoherent(cfg, t.nodes[id]);
    case Deliver(to, a, at) =>
      ObservingKeepsRanked(cfg, s.nodes[to].table, a, at);
      assert NodeCoherent(cfg, t.nodes[to]);
    case Forget(id, _, _) =>
      assert NodeCoherent(cfg, t.nodes[id]);
    case Tick(id, at) =>
      TickingKeepsLeading(cfg, s.nodes[id], t.nodes[id].primary, t.nodes[id].leaseSince, at, timeout);
      assert NodeCoherent(cfg, t.nodes[id]);
    case Restart(id, _) =>
      assert NodeCoherent(cfg, FRESH);
    case Depart(id, _) =>
  }

  /** In every reachable state, two nodes that each elected themselves at their last tick
      were not both candidates in each other's tables at those ticks. */
  lemma {:induction false} NoDualPrimaryUnderMutualVisibility(
    cfg: map<string, Config>, timeout: real, states: seq<Fleet>, steps: seq<Step>, a: string, b: string)
    requires Run(cfg, timeout, states, steps)
    requires states[0] == Fleet(map[], {})
    requires var s := states[|steps|];
             && a in s.nodes && b in s.nodes && a != b
             && s.nodes[a].ticked.Some? && s.nodes[a].primary == Some(a)
             && s.nodes[b].ticked.Some? && s.nodes[b].primary == Some(b)
    ensures var s := states[|steps|];
            b !in s.nodes[a].ticked.value || a !in s.nodes[b].ticked.value
  {
    ReachableIsCoherent(cfg, timeout, states, steps, |steps|);
    var s := states[|steps|];
    assert NodeCoherent(cfg, s.nodes[a]) && NodeCoherent(cfg, s.nodes[b]);
    if b in s.nodes[a].ticked.value && a in s.nodes[b].ticked.value {
      RankIsTotalOrder(ConfigRank(cfg, a), ConfigRank(cfg, b));
    }
  }

  lemma {:induction false} ReachableIsCoherent(cfg: map<string, Config>, timeout: real,
                                               states: seq<Fleet>, steps: seq<Step>, i: nat)
    requires Run(cfg, timeout, states, steps) && i <= |steps|
    requires states[0] == Fleet(map[], {})
    ensures Coherent(cfg, states[i])
  {
    if i > 0 {
      ReachableIsCoherent(cfg, timeout, states, steps, i - 1);
      StepKeepsCoherent(cfg, timeout, states[i - 1], steps[i - 1], states[i]);
    }
  }

  // ---- convergence over a window ----

  /** What stays fixed about a live node during a window. */
  datatype Profile = Profile(priority: int, role: Role, eligible: bool)

  predicate EntryFits(e: Entry, p: Profile) {
    e.priority == p.priority && e.role == p.role && Ineligible(e).None? == p.eligible
  }

  predicate AdvertFits(a: Advert, p: Profile) {
    EntryFits(Recorded(a, 0.0), p)
  }

  /** The one case in which an accepted advertisement changes nothing but the time: the
      remembered record carries the same counter, and says something else. */
  predicate StaleTwin(table: Table, a: Advert, p: Profile) {
    a.id in table && SameSequence(table[a.id], a) && !EntryFits(table[a.id], p)
  }

  function Absorb(table: Table, heard: seq<(Advert, real)>): Table
    decreases heard
  {
    if heard == [] then table else Absorb(Observed(table, heard[0].0, heard[0].1), heard[1..])
  }

  /** After any advertisements that all state the same facts, the record states them too,
      unless it disagreed before and every one of them repeated its counter. */
  lemma {:induction false} RecordAgreesIff(table: Table, id: string, heard: seq<(Advert, real)>, p: Profile)
    requires id in table
    requires forall i :: 0 <= i < |heard| ==> heard[i].0.id == id && AdvertFits(heard[i].0, p)
    ensures id in Absorb(table, heard)
    ensures EntryFits(Absorb(table, heard)[id], p) <==>
              EntryFits(table[id], p) || exists i :: 0 <= i < |heard| && !SameSequence(table[id], heard[i].0)
  {
    if heard != [] {
      var next := Observed(table, heard[0].0, heard[0].1);
      RecordAgreesIff(next, id, heard[1..], p);
      if !SameSequence(table[id], heard[0].0) {
        assert EntryFits(next[id], p);
      } else {
        assert forall a :: SameSequence(next[id], a) == SameSequence(table[id], a);
        assert forall i :: 0 < i < |heard| ==> heard[i] == heard[1..][i - 1];
      }
    }
  }

  /** The advertisement node `m` takes in during a step, if any. */
  function Intake(cfg: map<string, Config>, s: Fleet, st: Step, m: string): Option<Advert> {
    if st.Beat? && st.id == m && m in cfg && m in s.nodes then Some(Own(cfg, s, st))
    else if st.Deliver? && st.to == m then Some(st.advert)
    else None
  }

  /** During the window no live node leaves, every advertisement a live node sends or that
      arrives from it states the node's profile, and clocks do not go back. */
  ghost predicate Window(cfg: map<string, Config>, timeout: real, live: map<string, Profile>,
                         states: seq<Fleet>, steps: seq<Step>)
  {
    && Run(cfg, timeout, states, steps)
    && (forall m :: m in live ==> m in states[0].nodes && WellKeyed(states[0].nodes[m].table))
    && (forall i :: 0 <= i < |steps| && steps[i].Depart? ==> steps[i].id !in live)
    && (forall i, m {:trigger Intake(cfg, states[i], steps[i], m)} ::
          0 <= i < |steps| && Intake(cfg, states[i], steps[i], m).Some? ==>
            var a := Intake(cfg, states[i], steps[i], m).value; a.id in live ==> AdvertFits(a, live[a.id]))
    && (forall i, j :: 0 <= i < j < |steps| ==> steps[i].at <= steps[j].at)
  }

  /** At step `k` node `m` takes in an advertisement of `n`. */
  predicate Hears(cfg: map<string, Config>, states: seq<Fleet>, steps: seq<Step>, m: string, n: string, k: int)
    requires |states| == |steps| + 1
  {
    && 0 <= k < |steps| && Intake(cfg, states[k], steps[k], m).Some?
    && Intake(cfg, states[k], steps[k], m).value.id == n
  }

  function Advertised(cfg: map<string, Config>, states: seq<Fleet>, steps: seq<Step>, m: string, n: string, k: int)
    : Advert
    requires |states| == |steps| + 1 && Hears(cfg, states, steps, m, n, k)
  {
    Intake(cfg, states[k], steps[k], m).value
  }

  /** From step `i` up to step `j` node `m` neither restarts nor drops `n`. */
  ghost predicate KeptFrom(steps: seq<Step>, m: string, n: string, i: int, j: int) {
    forall k {:trigger steps[k]} :: 0 <= k < |steps| && i <= k < j ==>
      !(steps[k].Restart? && steps[k].id == m) && !(steps[k].Forget? && steps[k].id == m && steps[k].peer == n)
  }

  /** At step `i` node `m` heard `n`, and it did not forget it afterwards. */
  ghost predicate HeardAt(cfg: map<string, Config>, states: seq<Fleet>, steps: seq<Step>, m: string, n: string, i: nat)
    requires |states| == |steps| + 1
  {
    Hears(cfg, states, steps, m, n, i) && KeptFrom(steps, m, n, i + 1, |steps|)
  }

  ghost predicate Recent(cfg: map<string, Config>, timeout: real, states: seq<Fleet>, steps: seq<Step>,
                         now: real, m: string, n: string)
    requires |states| == |steps| + 1
  {
    exists i: nat :: HeardAt(cfg, states, steps, m, n, i) && now - steps[i].at <= timeout
  }

  /** At some time in the window `m` heard `n` when its record was no stale twin. */
  ghost predicate Refreshed(cfg: map<string, Config>, live: map<string, Profile>, states: seq<Fleet>, steps: seq<Step>,
                            m: string, n: string)
    requires |states| == |steps| + 1 && n in live
  {
    exists i: nat :: RefreshedAt(cfg, live, states, steps, m, n, i)
  }

  ghost predicate RefreshedAt(cfg: map<string, Config>, live: map<string, Profile>, states: seq<Fleet>,
                              steps: seq<Step>, m: string, n: string, i: nat)
    requires |states| == |steps| + 1 && n in live
  {
    && HeardAt(cfg, states, steps, m, n, i) && m in states[i].nodes
    && !StaleTwin(states[i].nodes[m].table, Advertised(cfg, states, steps, m, n, i), live[n])
  }

  /** Every live node has heard every live node, itself included, within the timeout before
      its next tick and once without a stale twin, and what it remembers of departed nodes has
      aged out. */
  ghost predicate Settled(cfg: map<string, Config>, timeout: real, live: map<string, Profile>,
                          states: seq<Fleet>, steps: seq<Step>, tickAt: map<string, real>)
    requires |states| == |steps| + 1
  {
    && AllRecent(cfg, timeout, live, states, steps, tickAt)
    && (forall m, n {:trigger Refreshed(cfg, live, states, steps, m, n)} :: m in live && n in live ==>
          Refreshed(cfg, live, states, steps, m, n))
  }

  /** The part of it that does not ask what the records said. */
  ghost predicate AllRecent(cfg: map<string, Config>, timeout: real, live: map<string, Profile>,
                            states: seq<Fleet>, steps: seq<Step>, tickAt: map<string, real>)
    requires |states| == |steps| + 1
  {
    && live.Keys <= tickAt.Keys
    && (forall m, n {:trigger Recent(cfg, timeout, states, steps, tickAt[m], m, n)} :: m in live && n in live ==>
          Recent(cfg, timeout, states, steps, tickAt[m], m, n))
    && forall m, id :: m in live && m in states[|steps|].nodes && id in states[|steps|].nodes[m].table
                       && id !in live ==>
         !Live(states[|steps|].nodes[m].table[id], tickAt[m], timeout)
  }

  ghost predicate Leader(live: map<string, Profile>, w: string) {
    && w in live && live[w].eligible
    && forall id :: id in live && live[id].eligible ==> Le(ProfileRank(live, w), ProfileRank(live, id))
  }

  function ProfileRank(live: map<string, Profile>, id: string): Rank
    requires id in live
  {
    Rank(live[id].role, live[id].priority, id)
  }

  ghost predicate OnlyElects(table: Table, now: real, timeout: real, leader: string) {
    forall w :: Elects(table, now, timeout, w) <==> w == Some(leader)
  }

  /** The fleet converges: after the window, a tick at any live node names the one leader
      the profiles determine, so exactly the leader is primary. */
  lemma FleetConverges(cfg: map<string, Config>, timeout: real, live: map<string, Profile>,
                       states: seq<Fleet>, steps: seq<Step>, tickAt: map<string, real>)
    returns (leader: string)
    requires Window(cfg, timeout, live, states, steps)
    requires Settled(cfg, timeout, live, states, steps, tickAt)
    requires exists id :: id in live && live[id].eligible
    ensures Leader(live, leader)
    ensures forall m {:trigger m in live} :: m in live ==>
              m in states[|steps|].nodes && OnlyElects(states[|steps|].nodes[m].table, tickAt[m], timeout, leader)
  {
    var eligible := set id | id in live && live[id].eligible;
    var first :| first in live && live[first].eligible;
    assert first in eligible;
    leader := SomeLeader(live, eligible);
    forall m | m in live
      ensures m in states[|steps|].nodes && OnlyElects(states[|steps|].nodes[m].table, tickAt[m], timeout, leader)
    {
      TableElectsLeader(cfg, timeout, live, states, steps, tickAt, m, leader);
    }
  }

  lemma {:induction false} SomeLeader(live: map<string, Profile>, among: set<string>) returns (w: string)
    requires among != {} && forall id :: id in among ==> id in live && live[id].eligible
    ensures w in among && forall id :: id in among ==> Le(ProfileRank(live, w), ProfileRank(live, id))
  {
    var x :| x in among;
    RankIsTotalOrder(ProfileRank(live, x), ProfileRank(live, x));
    if among == {x} {
      w := x;
    } else {
      var v := SomeLeader(live, among - {x});
      RankIsTotalOrder(ProfileRank(live, x), ProfileRank(live, v));
      w := if Le(ProfileRank(live, x), ProfileRank(live, v)) then x else v;
      forall id | id in among ensures Le(ProfileRank(live, w), ProfileRank(live, id)) {
        if id != x && w == x {
          RankTransitive(ProfileRank(live, x), ProfileRank(live, v), ProfileRank(live, id));
        }
      }
    }
  }

  lemma {:induction false} LiveNodesStay(cfg: map<string, Config>, timeout: real, live: map<string, Profile>,
                                         states: seq<Fleet>, steps: seq<Step>, m: string, j: nat)
    requires Window(cfg, timeout, live, states, steps) && m in live && j <= |steps|
    ensures m in states[j].nodes && WellKeyed(states[j].nodes[m].table)
  {
    if j > 0 {
      LiveNodesStay(cfg, timeout, live, states, steps, m, j - 1);
      assert Next(cfg, timeout, states[j - 1], steps[j - 1], states[j]);
    }
  }

  /** What a step leaves of a record. */
  lemma RecordAfterStep(cfg: map<string, Config>, timeout: real, s: Fleet, st: Step, t: Fleet, m: string, n: string)
    requires Next(cfg, timeout, s, st, t) && m in s.nodes
    requires !(st.Depart? && st.id == m) && !(st.Restart? && st.id == m) && !(st.Forget? && st.id == m && st.peer == n)
    requires var a := Intake(cfg, s, st, m); n in s.nodes[m].table || (a.Some? && a.value.id == n)
    ensures m in t.nodes && n in t.nodes[m].table
    ensures var a := Intake(cfg, s, st, m);
            t.nodes[m].table[n] == if a.Some? && a.value.id == n then Observed(s.nodes[m].table, a.value, st.at)[n]
                                   else s.nodes[m].table[n]
  {
    hide Elects, Candidates;
  }

  /** A node that has been heard stays live in the table for the timeout, stale twin or not. */
  lemma {:induction false} StaysHeard(cfg: map<string, Config>, timeout: real, live: map<string, Profile>,
                                      states: seq<Fleet>, steps: seq<Step>, m: string, n: string, i: nat, j: nat)
    requires Window(cfg, timeout, live, states, steps) && m in live
    requires HeardAt(cfg, states, steps, m, n, i) && i < j <= |steps|
    ensures m in states[j].nodes && n in states[j].nodes[m].table
    ensures states[j].nodes[m].table[n].lastSeen >= steps[i].at
    ensures forall now :: now - steps[i].at <= timeout ==> Live(states[j].nodes[m].table[n], now, timeout)
  {
    hide Next, WellKeyed, SameSequence, Recorded;
    LiveNodesStay(cfg, timeout, live, states, steps, m, j - 1);
    if i < j - 1 {
      StaysHeard(cfg, timeout, live, states, steps, m, n, i, j - 1);
    }
    RecordAfterStep(cfg, timeout, states[j - 1], steps[j - 1], states[j], m, n);
    ObservedIsSeen(states[j - 1].nodes[m].table, n, steps[j - 1].at);
  }

  lemma ObservedIsSeen(table: Table, n: string, at: real)
    ensures forall a: Advert :: a.id == n ==> Observed(table, a, at)[n].lastSeen == at
  {
  }

  /** Between `i` and `j` node `m` hears `n` under another counter than its record had at `i`. */
  ghost predicate OtherCounter(cfg: map<string, Config>, states: seq<Fleet>, steps: seq<Step>, m: string, n: string,
                               i: int, j: int, k: int)
    requires |states| == |steps| + 1 && 0 <= i <= |steps| && m in states[i].nodes && n in states[i].nodes[m].table
  {
    && i <= k < j && Hears(cfg, states, steps, m, n, k)
    && !SameSequence(states[i].nodes[m].table[n], Advertised(cfg, states, steps, m, n, k))
  }

  ghost predicate HasOtherCounter(cfg: map<string, Config>, states: seq<Fleet>, steps: seq<Step>, m: string, n: string,
                                  i: int, j: int)
    requires |states| == |steps| + 1 && 0 <= i <= |steps| && m in states[i].nodes && n in states[i].nodes[m].table
  {
    exists k :: OtherCounter(cfg, states, steps, m, n, i, j, k)
  }

  /** Over any part of a window, whatever else happens, the record of a live node comes to say
      what the node says now exactly when it did so before or another counter was heard. */
  lemma {:induction false} RecordFitsIff(cfg: map<string, Config>, timeout: real, live: map<string, Profile>,
                                         states: seq<Fleet>, steps: seq<Step>, m: string, n: string, i: nat, j: nat)
    requires Window(cfg, timeout, live, states, steps) && m in live && n in live && i <= j <= |steps|
    requires m in states[i].nodes && n in states[i].nodes[m].table && KeptFrom(steps, m, n, i, j)
    ensures m in states[j].nodes && n in states[j].nodes[m].table
    ensures EntryFits(states[j].nodes[m].table[n], live[n]) <==>
              EntryFits(states[i].nodes[m].table[n], live[n])
              || HasOtherCounter(cfg, states, steps, m, n, i, j)
    ensures HasOtherCounter(cfg, states, steps, m, n, i, j)
            || states[j].nodes[m].table[n].seqNo == states[i].nodes[m].table[n].seqNo
    decreases j - i
  {
    hide Next, WellKeyed, Recorded;
    if i < j {
      RecordFitsIff(cfg, timeout, live, states, steps, m, n, i, j - 1);
      LiveNodesStay(cfg, timeout, live, states, steps, m, j - 1);
      RecordAfterStep(cfg, timeout, states[j - 1], steps[j - 1], states[j], m, n);
      OtherCounterSoFar(cfg, states, steps, m, n, i, j);
      if Hears(cfg, states, steps, m, n, j - 1) {
        var a := Advertised(cfg, states, steps, m, n, j - 1);
        HeardRecord(states[j - 1].nodes[m].table, states[i].nodes[m].table[n], a, steps[j - 1].at, live[n]);
        assert OtherCounter(cfg, states, steps, m, n, i, j, j - 1) <==> !SameSequence(states[i].nodes[m].table[n], a);
      }
    }
  }

  lemma OtherCounterSoFar(cfg: map<string, Config>, states: seq<Fleet>, steps: seq<Step>, m: string, n: string,
                          i: nat, j: nat)
    requires |states| == |steps| + 1 && i < j <= |steps| && m in states[i].nodes && n in states[i].nodes[m].table
    ensures HasOtherCounter(cfg, states, steps, m, n, i, j) <==>
              HasOtherCounter(cfg, states, steps, m, n, i, j - 1)
              || OtherCounter(cfg, states, steps, m, n, i, j, j - 1)
  {
    hide Hears, SameSequence;
    if HasOtherCounter(cfg, states, steps, m, n, i, j - 1) {
      var k :| OtherCounter(cfg, states, steps, m, n, i, j - 1, k);
      assert OtherCounter(cfg, states, steps, m, n, i, j, k);
    }
    if HasOtherCounter(cfg, states, steps, m, n, i, j) {
      var k :| OtherCounter(cfg, states, steps, m, n, i, j, k);
      assert k == j - 1 || OtherCounter(cfg, states, steps, m, n, i, j - 1, k);
    }
  }

  /** What hearing an advertisement that fits does to a record. */
  lemma HeardRecord(table: Table, before: Entry, a: Advert, at: real, p: Profile)
    requires a.id in table && AdvertFits(a, p)
    ensures var e := Observed(table, a, at)[a.id];
            && (EntryFits(e, p) <==> EntryFits(table[a.id], p) || !SameSequence(table[a.id], a))
            && (SameSequence(table[a.id], a) ==> e.seqNo == table[a.id].seqNo)
            && (table[a.id].seqNo == before.seqNo ==> (SameSequence(table[a.id], a) <==> SameSequence(before, a)))
  {
  }

  /** For a live node that has been heard, being refreshed is exactly what its record needs. */
  lemma FinalRecordFitsIff(cfg: map<string, Config>, timeout: real, live: map<string, Profile>,
                           states: seq<Fleet>, steps: seq<Step>, m: string, n: string, i: nat)
    requires Window(cfg, timeout, live, states, steps) && m in live && n in live
    requires HeardAt(cfg, states, steps, m, n, i)
    ensures m in states[|steps|].nodes && n in states[|steps|].nodes[m].table
    ensures EntryFits(states[|steps|].nodes[m].table[n], live[n]) <==> Refreshed(cfg, live, states, steps, m, n)
  {
    StaysHeard(cfg, timeout, live, states, steps, m, n, i, |steps|);
    LiveNodesStay(cfg, timeout, live, states, steps, m, i);
    if Refreshed(cfg, live, states, steps, m, n) {
      var k: nat :| RefreshedAt(cfg, live, states, steps, m, n, k);
      RefreshLasts(cfg, timeout, live, states, steps, m, n, k);
    }
    if EntryFits(states[|steps|].nodes[m].table[n], live[n]) && !RefreshedAt(cfg, live, states, steps, m, n, i) {
      var k := NextRefresh(cfg, timeout, live, states, steps, m, n, i);
      assert RefreshedAt(cfg, live, states, steps, m, n, k);
    }
  }

  lemma RefreshLasts(cfg: map<string, Config>, timeout: real, live: map<string, Profile>,
                     states: seq<Fleet>, steps: seq<Step>, m: string, n: string, k: nat)
    requires Window(cfg, timeout, live, states, steps) && m in live && n in live
    requires RefreshedAt(cfg, live, states, steps, m, n, k)
    ensures m in states[|steps|].nodes && n in states[|steps|].nodes[m].table
    ensures EntryFits(states[|steps|].nodes[m].table[n], live[n])
  {
    hide Next, WellKeyed;
    LiveNodesStay(cfg, timeout, live, states, steps, m, k);
    RecordHeard(cfg, timeout, live, states, steps, m, n, k);
    RecordFitsIff(cfg, timeout, live, states, steps, m, n, k + 1, |steps|);
  }

  /** Right after it is heard a record fits unless it was a stale twin, and repeats its counter. */
  lemma RecordHeard(cfg: map<string, Config>, timeout: real, live: map<string, Profile>,
                    states: seq<Fleet>, steps: seq<Step>, m: string, n: string, k: nat)
    requires Window(cfg, timeout, live, states, steps) && m in live && n in live
    requires Hears(cfg, states, steps, m, n, k) && m in states[k].nodes
    ensures m in states[k + 1].nodes && n in states[k + 1].nodes[m].table
    ensures var a, e := Advertised(cfg, states, steps, m, n, k), states[k + 1].nodes[m].table[n];
            && (EntryFits(e, live[n]) <==> !StaleTwin(states[k].nodes[m].table, a, live[n]))
            && forall b :: SameSequence(e, b) <==> SameCounter(a, b)
  {
    hide Next, WellKeyed;
    RecordAfterStep(cfg, timeout, states[k], steps[k], states[k + 1], m, n);
    assert AdvertFits(Advertised(cfg, states, steps, m, n, k), live[n]);
  }

  lemma NextRefresh(cfg: map<string, Config>, timeout: real, live: map<string, Profile>,
                    states: seq<Fleet>, steps: seq<Step>, m: string, n: string, i: nat) returns (k: nat)
    requires Window(cfg, timeout, live, states, steps) && m in live && n in live
    requires HeardAt(cfg, states, steps, m, n, i) && m in states[i].nodes
    requires StaleTwin(states[i].nodes[m].table, Advertised(cfg, states, steps, m, n, i), live[n])
    requires m in states[|steps|].nodes && n in states[|steps|].nodes[m].table
    requires EntryFits(states[|steps|].nodes[m].table[n], live[n])
    ensures RefreshedAt(cfg, live, states, steps, m, n, k)
  {
    hide Next, WellKeyed, EntryFits;
    RecordFitsIff(cfg, timeout, live, states, steps, m, n, i, |steps|);
    k :| OtherCounter(cfg, states, steps, m, n, i, |steps|, k);
    RecordFitsIff(cfg, timeout, live, states, steps, m, n, i, k);
    if HasOtherCounter(cfg, states, steps, m, n, i, k) {
      assert EntryFits(states[k].nodes[m].table[n], live[n]);
    } else {
      assert states[k].nodes[m].table[n].seqNo == states[i].nodes[m].table[n].seqNo;
    }
  }

  /** Two advertisements with the same readable counter. */
  predicate SameCounter(a: Advert, b: Advert) {
    SameSequence(Recorded(a, 0.0), b)
  }

  /** Hearing a node twice under different counters is enough, whatever was remembered of it. */
  lemma TwoCountersRefresh(cfg: map<string, Config>, timeout: real, live: map<string, Profile>,
                           states: seq<Fleet>, steps: seq<Step>, m: string, n: string, i: nat, k: nat)
    requires Window(cfg, timeout, live, states, steps) && m in live && n in live && i < k
    requires HeardAt(cfg, states, steps, m, n, i) && HeardAt(cfg, states, steps, m, n, k)
    requires !SameCounter(Advertised(cfg, states, steps, m, n, i), Advertised(cfg, states, steps, m, n, k))
    ensures Refreshed(cfg, live, states, steps, m, n)
  {
    hide Next, WellKeyed, EntryFits;
    LiveNodesStay(cfg, timeout, live, states, steps, m, i);
    RecordHeard(cfg, timeout, live, states, steps, m, n, i);
    assert OtherCounter(cfg, states, steps, m, n, i + 1, |steps|, k);
    assert HasOtherCounter(cfg, states, steps, m, n, i + 1, |steps|);
    RecordFitsIff(cfg, timeout, live, states, steps, m, n, i + 1, |steps|);
    FinalRecordFitsIff(cfg, timeout, live, states, steps, m, n, i);
  }

  /** The counters a window shows decide it: every pair heard twice under different counters. */
  ghost predicate CountersDiffer(cfg: map<string, Config>, live: map<string, Profile>, states: seq<Fleet>,
                                 steps: seq<Step>)
    requires |states| == |steps| + 1
  {
    forall m, n {:trigger HeardTwice(cfg, states, steps, m, n)} :: m in live && n in live ==>
      HeardTwice(cfg, states, steps, m, n)
  }

  ghost predicate HeardTwice(cfg: map<string, Config>, states: seq<Fleet>, steps: seq<Step>, m: string, n: string)
    requires |states| == |steps| + 1
  {
    exists i: nat, k: nat :: TwiceHeard(cfg, states, steps, m, n, i, k)
  }

  ghost predicate TwiceHeard(cfg: map<string, Config>, states: seq<Fleet>, steps: seq<Step>, m: string, n: string,
                             i: nat, k: nat)
    requires |states| == |steps| + 1
  {
    && i < k && HeardAt(cfg, states, steps, m, n, i) && HeardAt(cfg, states, steps, m, n, k)
    && !SameCounter(Advertised(cfg, states, steps, m, n, i), Advertised(cfg, states, steps, m, n, k))
  }

  /** So the fleet converges from any tables once every live node has been heard by every live
      node twice under different counters, the last time within the timeout. */
  lemma FleetConvergesOnCounters(cfg: map<string, Config>, timeout: real, live: map<string, Profile>,
                                 states: seq<Fleet>, steps: seq<Step>, tickAt: map<string, real>)
    returns (leader: string)
    requires Window(cfg, timeout, live, states, steps)
    requires AllRecent(cfg, timeout, live, states, steps, tickAt) && CountersDiffer(cfg, live, states, steps)
    requires exists id :: id in live && live[id].eligible
    ensures Leader(live, leader)
    ensures forall m {:trigger m in live} :: m in live ==>
              m in states[|steps|].nodes && OnlyElects(states[|steps|].nodes[m].table, tickAt[m], timeout, leader)
  {
    forall m, n | m in live && n in live ensures Refreshed(cfg, live, states, steps, m, n) {
      assert HeardTwice(cfg, states, steps, m, n);
      var i: nat, k: nat :| TwiceHeard(cfg, states, steps, m, n, i, k);
      TwoCountersRefresh(cfg, timeout, live, states, steps, m, n, i, k);
    }
    leader := FleetConverges(cfg, timeout, live, states, steps, tickAt);
  }

  lemma TableElectsLeader(cfg: map<string, Config>, timeout: real, live: map<string, Profile>,
                          states: seq<Fleet>, steps: seq<Step>, tickAt: map<string, real>, m: string, leader: string)
    requires Window(cfg, timeout, live, states, steps)
    requires Settled(cfg, timeout, live, states, steps, tickAt)
    requires m in live && Leader(live, leader)
    ensures m in states[|steps|].nodes && OnlyElects(states[|steps|].nodes[m].table, tickAt[m], timeout, leader)
  {
    LiveNodesStay(cfg, timeout, live, states, steps, m, |steps|);
    var table := states[|steps|].nodes[m].table;
    forall n | n in live
      ensures n in table && EntryFits(table[n], live[n]) && Live(table[n], tickAt[m], timeout)
    {
      Remembers(cfg, timeout, live, states, steps, tickAt, m, n);
    }
    MirrorElectsLeader(live, table, tickAt[m], timeout, leader);
  }

  lemma Remembers(cfg: map<string, Config>, timeout: real, live: map<string, Profile>,
                  states: seq<Fleet>, steps: seq<Step>, tickAt: map<string, real>, m: string, n: string)
    requires Window(cfg, timeout, live, states, steps)
    requires Settled(cfg, timeout, live, states, steps, tickAt)
    requires m in live && n in live && m in states[|steps|].nodes
    ensures var table := states[|steps|].nodes[m].table;
            n in table && EntryFits(table[n], live[n]) && Live(table[n], tickAt[m], timeout)
  {
    assert Recent(cfg, timeout, states, steps, tickAt[m], m, n);
    var i: nat :| HeardAt(cfg, states, steps, m, n, i) && tickAt[m] - steps[i].at <= timeout;
    StaysHeard(cfg, timeout, live, states, steps, m, n, i, |steps|);
    FinalRecordFitsIff(cfg, timeout, live, states, steps, m, n, i);
    assert Refreshed(cfg, live, states, steps, m, n);
  }

  /** A table whose live records are exactly the profiles elects their leader. */
  lemma MirrorElectsLeader(live: map<string, Profile>, table: Table, now: real, timeout: real, leader: string)
    requires WellKeyed(table) && Leader(live, leader)
    requires forall n :: n in live ==> n in table && EntryFits(table[n], live[n]) && Live(table[n], now, timeout)
    requires forall id :: id in table && id !in live ==> !Live(table[id], now, timeout)
    ensures OnlyElects(table, now, timeout, leader)
  {
    assert IsCandidate(table, leader, now, timeout);
    forall id | IsCandidate(table, id, now, timeout)
      ensures Le(RankOf(table[leader]), RankOf(table[id]))
    {
      assert id in live && live[id].eligible;
      assert RankOf(table[id]) == ProfileRank(live, id) && RankOf(table[leader]) == ProfileRank(live, leader);
    }
    forall w | Elects(table, now, timeout, w) ensures w == Some(leader) {
      ElectionIsUnique(table, now, timeout, w, Some(leader));
    }
  }

  /** A stale twin splits the fleet until the node's next counter: `b` remembers `a` as
      overheated under counter 1, `a` restarts cool and counts 1 again, and `b` hears it and still
      leads. Counter 2 heals it. */
  lemma StaleTwinSplitsUntilNextCounter()
    ensures var cool := Advert("a", Reading(1), Reading(0), Reading(1), true, PrimaryCapable, "", Reading(1));
            var hot, next := cool.(thermal := Reading(3)), cool.(seqNo := Reading(2));
            var b := Advert("b", Reading(2), Reading(0), Reading(1), true, PrimaryCapable, "", Reading(1));
            var atA := Absorb(map[], [(cool, 10.0), (b, 10.0)]);
            var atB := Absorb(map[], [(hot, 0.0), (cool, 10.0), (b, 10.0)]);
            && Elects(atA, 10.0, 30.0, Some("a"))
            && Elects(atB, 10.0, 30.0, Some("b")) && "a" in atB && Live(atB["a"], 10.0, 30.0)
            && Elects(Absorb(atB, [(next, 20.0)]), 20.0, 30.0, Some("a"))
  {
    var cool := Advert("a", Reading(1), Reading(0), Reading(1), true, PrimaryCapable, "", Reading(1));
    var hot, next := cool.(thermal := Reading(3)), cool.(seqNo := Reading(2));
    var b := Advert("b", Reading(2), Reading(0), Reading(1), true, PrimaryCapable, "", Reading(1));
    var a1 := Observed(map[], cool, 10.0);
    assert Absorb(a1, [(b, 10.0)]) == Absorb(Observed(a1, b, 10.0), []);
    assert [(cool, 10.0), (b, 10.0)][1..] == [(b, 10.0)];
    var h1 := Observed(map[], hot, 0.0);
    var h2 := Observed(h1, cool, 10.0);
    assert [(hot, 0.0), (cool, 10.0), (b, 10.0)][1..] == [(cool, 10.0), (b, 10.0)];
    assert Absorb(h1, [(cool, 10.0), (b, 10.0)]) == Absorb(h2, [(b, 10.0)]);
    assert Absorb(h2, [(b, 10.0)]) == Absorb(Observed(h2, b, 10.0), []);
    var atA := Observed(a1, b, 10.0);
    var atB := Observed(h2, b, 10.0);
    var healed := Observed(atB, next, 20.0);
    assert Absorb(atB, [(next, 20.0)]) == Absorb(healed, []);
    TextReflexive("a");
    TextReflexive("b");
    assert atA["a"] == Recorded(cool, 10.0) && atA["b"] == Recorded(b, 10.0);
    assert atB["a"] == Recorded(hot, 10.0) && atB["b"] == Recorded(b, 10.0);
    assert healed["a"] == Recorded(next, 20.0) && healed["b"] == Recorded(b, 10.0);
  }
}
