/** One node's view of the mesh election: the heartbeat table, eligibility and the tick. */
module Election {
  import opened Options
  import opened Ranking

  const THERMAL_REFUSE_STATUS := 3
  const DEFAULT_PRIORITY := 100

  /** An integer field of an advertisement, as `int()` would take it. */
  datatype Reading = Absent | Unusable | Reading(n: int)

  datatype Advert = Advert(
    id: string, priority: Reading, thermal: Reading, mem: Reading,
    paired: bool, role: Role, primary: string, seqNo: Reading)

  datatype Entry = Entry(
    id: string, priority: int, thermal: int, mem: Option<int>,
    paired: bool, role: Role, primary: string, seqNo: Reading, lastSeen: real)

  datatype Reason = Unpaired | ThermalCritical | NoHeadroom

  type Table = map<string, Entry>

  function IntOr(r: Reading, fallback: int): int {
    if r.Reading? then r.n else fallback
  }

  /** The record an accepted advertisement becomes. Headroom that was not reported is
      unknown; headroom that was reported but cannot be read counts as zero. */
  function Recorded(a: Advert, now: real): Entry {
    Entry(a.id, IntOr(a.priority, DEFAULT_PRIORITY), IntOr(a.thermal, 0),
          (if a.mem.Absent? then None else Some(IntOr(a.mem, 0))),
          a.paired, a.role, a.primary,
          (if a.seqNo.Absent? then Reading(0) else a.seqNo), now)
  }

  /** The same counter on both sides, both readable: a duplicated frame. */
  predicate SameSequence(prev: Entry, a: Advert) {
    var s := Recorded(a, 0.0).seqNo;
    s.Reading? && prev.seqNo.Reading? && s.n == prev.seqNo.n
  }

  function Observed(nodes: Table, a: Advert, now: real): Table {
    if a.id in nodes && SameSequence(nodes[a.id], a)
    then nodes[a.id := nodes[a.id].(lastSeen := now)]
    else nodes[a.id := Recorded(a, now)]
  }

  function Ineligible(e: Entry): Option<Reason> {
    if !e.paired then Some(Unpaired)
    else if e.thermal >= THERMAL_REFUSE_STATUS then Some(ThermalCritical)
    else if e.mem.Some? && e.mem.value <= 0 then Some(NoHeadroom)
    else None
  }

  function RankOf(e: Entry): Rank {
    Rank(e.role, e.priority, e.id)
  }

  predicate Live(e: Entry, now: real, timeout: real) {
    now - e.lastSeen <= timeout
  }

  predicate IsCandidate(nodes: Table, id: string, now: real, timeout: real) {
    id in nodes && Live(nodes[id], now, timeout) && Ineligible(nodes[id]).None?
  }

  ghost predicate WellKeyed(nodes: Table) {
    forall id :: id in nodes ==> nodes[id].id == id && id != ""
  }

  /** The history-free election: the best-ranked live eligible node, or nobody. */
  ghost predicate Elects(nodes: Table, now: real, timeout: real, winner: Option<string>) {
    match winner
    case None => forall id :: !IsCandidate(nodes, id, now, timeout)
    case Some(w) =>
      && IsCandidate(nodes, w, now, timeout)
      && forall id :: IsCandidate(nodes, id, now, timeout) ==> Le(RankOf(nodes[w]), RankOf(nodes[id]))
  }

  /** Who may lead, over what was recorded: heard within the timeout, paired, below the thermal
      status that refuses, and not known to be out of memory. */
  lemma CandidateIff(nodes: Table, id: string, now: real, timeout: real)
    ensures IsCandidate(nodes, id, now, timeout) <==>
              && id in nodes && now - nodes[id].lastSeen <= timeout
              && nodes[id].paired && nodes[id].thermal < 3
              && (nodes[id].mem.None? || nodes[id].mem.value > 0)
  {
  }

  /** The winner against any other candidate: a primary-capable node before a follower, then the
      lower priority, then the id that comes first. */
  lemma WinnerIsBest(nodes: Table, now: real, timeout: real, w: string, id: string)
    requires WellKeyed(nodes) && Elects(nodes, now, timeout, Some(w))
    requires id in nodes && now - nodes[id].lastSeen <= timeout && nodes[id].paired && nodes[id].thermal < 3
    requires nodes[id].mem.None? || nodes[id].mem.value > 0
    ensures nodes[w].role == Follower ==> nodes[id].role == Follower
    ensures nodes[w].role == nodes[id].role ==> nodes[w].priority <= nodes[id].priority
    ensures nodes[w].role == nodes[id].role && nodes[w].priority == nodes[id].priority ==>
              exists k :: ComesFirstAt(w, id, k)
  {
    CandidateIff(nodes, id, now, timeout);
    LeIff(RankOf(nodes[w]), RankOf(nodes[id]));
  }

  /** What hearing an advertisement leaves of it in the table. A counter that is the recorded one,
      both readable, renews the time only; otherwise each field is what was sent, or what an
      absent or unreadable one stands for. No other record changes. */
  lemma HeardOverFields(nodes: Table, a: Advert, now: real)
    ensures var t := Observed(nodes, a, now);
            && a.id in t && t[a.id].lastSeen == now
            && (forall id :: id != a.id ==> (id in t <==> id in nodes) && (id in nodes ==> t[id] == nodes[id]))
            && var counter := if a.seqNo.Absent? then Reading(0) else a.seqNo;
               if a.id in nodes && counter.Reading? && nodes[a.id].seqNo == counter
               then t[a.id].(lastSeen := 0.0) == nodes[a.id].(lastSeen := 0.0)
               else
                 var e := t[a.id];
                 && e.id == a.id && e.paired == a.paired && e.role == a.role && e.primary == a.primary
                 && e.priority == (if a.priority.Reading? then a.priority.n else 100)
                 && e.thermal == (if a.thermal.Reading? then a.thermal.n else 0)
                 && (e.mem.None? <==> a.mem.Absent?)
                 && (e.mem.Some? ==> e.mem.value == if a.mem.Reading? then a.mem.n else 0)
                 && e.seqNo == counter
  {
  }

  lemma ElectionIsUnique(nodes: Table, now: real, timeout: real, v: Option<string>, w: Option<string>)
    requires WellKeyed(nodes)
    requires Elects(nodes, now, timeout, v) && Elects(nodes, now, timeout, w)
    ensures v == w
  {
    if v.Some? && w.Some? {
      RankIsTotalOrder(RankOf(nodes[v.value]), RankOf(nodes[w.value]));
    }
  }

  /** A holder keeps the lease exactly while it is a candidate nobody strictly outranks. */
  lemma HolderLosesLeaseIff(nodes: Table, now: real, timeout: real, holder: string, winner: Option<string>)
    requires WellKeyed(nodes)
    requires Elects(nodes, now, timeout, winner)
    ensures winner != Some(holder) <==>
              || !IsCandidate(nodes, holder, now, timeout)
              || exists id :: IsCandidate(nodes, id, now, timeout) && !Le(RankOf(nodes[holder]), RankOf(nodes[id]))
  {
    if winner != Some(holder) && IsCandidate(nodes, holder, now, timeout) {
      var w := winner.value;
      RankIsTotalOrder(RankOf(nodes[holder]), RankOf(nodes[w]));
      assert IsCandidate(nodes, w, now, timeout) && !Le(RankOf(nodes[holder]), RankOf(nodes[w]));
    }
  }

  /** A follower leads exactly when there is a candidate and no candidate is primary-capable. */
  lemma FollowerLeadsIff(nodes: Table, now: real, timeout: real, winner: Option<string>)
    requires WellKeyed(nodes)
    requires Elects(nodes, now, timeout, winner) && winner.Some?
    ensures nodes[winner.value].role == Follower <==>
              forall id :: IsCandidate(nodes, id, now, timeout) ==> nodes[id].role == Follower
  {
    assert IsCandidate(nodes, winner.value, now, timeout);
    forall id | IsCandidate(nodes, id, now, timeout) && nodes[winner.value].role == Follower
      ensures nodes[id].role == Follower
    {
      assert Le(RankOf(nodes[winner.value]), RankOf(nodes[id]));
    }
  }

  // ---- the sort inside `_live_candidates` ----

  function Insert(e: Entry, s: seq<Entry>): seq<Entry> {
    if s == [] || Le(RankOf(e), RankOf(s[0])) then [e] + s else [s[0]] + Insert(e, s[1..])
  }

  function SortByRank(s: seq<Entry>): seq<Entry> {
    if s == [] then [] else Insert(s[0], SortByRank(s[1..]))
  }

  ghost predicate Ascending(s: seq<Entry>) {
    forall i, j :: 0 <= i < j < |s| ==> Le(RankOf(s[i]), RankOf(s[j]))
  }

  lemma {:induction false} InsertKeepsOrder(e: Entry, s: seq<Entry>)
    requires Ascending(s)
    ensures Ascending(Insert(e, s)) && multiset(Insert(e, s)) == multiset{e} + multiset(s)
  {
    hide Le, RankOf, Ascending;
    if s == [] {
      PrependAscends(e, s);
    } else if Le(RankOf(e), RankOf(s[0])) {
      AscendingTail(s);
      forall x | x in s ensures Le(RankOf(e), RankOf(x)) {
        if x != s[0] {
          RankTransitive(RankOf(e), RankOf(s[0]), RankOf(x));
        }
      }
      PrependAscends(e, s);
    } else {
      AscendingTail(s);
      InsertKeepsOrder(e, s[1..]);
      RankIsTotalOrder(RankOf(e), RankOf(s[0]));
      assert s == [s[0]] + s[1..];
      forall x | x in Insert(e, s[1..]) ensures Le(RankOf(s[0]), RankOf(x)) {
        assert x in multiset(Insert(e, s[1..]));
      }
      PrependAscends(s[0], Insert(e, s[1..]));
    }
  }

  lemma AscendingTail(s: seq<Entry>)
    requires Ascending(s) && s != []
    ensures Ascending(s[1..]) && forall x :: x in s[1..] ==> Le(RankOf(s[0]), RankOf(x))
  {
    hide Le, RankOf;
  }

  lemma PrependAscends(e: Entry, s: seq<Entry>)
    requires (s != [] ==> Ascending(s)) && forall x :: x in s ==> Le(RankOf(e), RankOf(x))
    ensures Ascending([e] + s)
  {
    hide Le, RankOf;
  }

  lemma {:induction false} SortOrders(s: seq<Entry>)
    ensures Ascending(SortByRank(s)) && multiset(SortByRank(s)) == multiset(s)
  {
    if s != [] {
      SortOrders(s[1..]);
      InsertKeepsOrder(s[0], SortByRank(s[1..]));
      assert s == [s[0]] + s[1..];
    }
  }

  class MeshElection {
    const nodeId: string
    const priority: int
    const role: Role
    const timeout: real
    var nodes: Table
    var primary: Option<string>
    var leaseSince: real
    var seqNo: nat

    ghost predicate Valid()
      reads this
    {
      nodeId != "" && WellKeyed(nodes)
    }

    constructor (id: string, priority: int, timeout: real, role: Role)
      ensures Valid() && nodes == map[] && primary == None && seqNo == 0 && leaseSince == 0.0
      ensures this.priority == priority && this.role == role
      ensures this.nodeId == if id == "" then "node-unknown" else id
      ensures this.timeout == if timeout < 1.0 then 1.0 else timeout
    {
      this.nodeId := if id == "" then "node-unknown" else id;
      this.priority := priority;
      this.role := role;
      this.timeout := if timeout < 1.0 then 1.0 else timeout;
      nodes, primary, leaseSince, seqNo := map[], None, 0.0, 0;
    }

    /** `payload` is None when what arrived is not a dictionary. */
    method ObserveHeartbeat(payload: Option<Advert>, now: real) returns (accepted: bool)
      requires Valid()
      modifies this`nodes
      ensures Valid()
      ensures accepted == (payload.Some? && payload.value.id != "")
      ensures nodes == if accepted then Observed(old(nodes), payload.value, now) else old(nodes)
    {
      if payload.None? || payload.value.id == "" {
        return false;
      }
      var a := payload.value;
      var entry := Recorded(a, now);
      if a.id in nodes {
        var prev := nodes[a.id];
        if entry.seqNo.Reading? && prev.seqNo.Reading? && entry.seqNo.n == prev.seqNo.n {
          nodes := nodes[a.id := prev.(lastSeen := now)];
          return true;
        }
      }
      nodes := nodes[a.id := entry];
      return true;
    }

    method LocalHeartbeat(thermal: int, mem: int, paired: bool, now: real) returns (payload: Advert)
      requires Valid()
      modifies this`nodes, this`seqNo
      ensures Valid() && seqNo == old(seqNo) + 1
      ensures payload == OwnAdvert(nodeId, priority, role, thermal, mem, paired, primary, seqNo)
      ensures payload.id == nodeId && payload.role == role && payload.paired == paired
      ensures payload.priority == Reading(priority) && payload.thermal == Reading(thermal)
      ensures payload.mem == Reading(mem) && payload.seqNo == Reading(seqNo)
      ensures payload.primary == match primary case None => "" case Some(p) => p
      ensures nodes == Observed(old(nodes), payload, now)
    {
      seqNo := seqNo + 1;
      payload := OwnAdvert(nodeId, priority, role, thermal, mem, paired, primary, seqNo);
      var _ := ObserveHeartbeat(Some(payload), now);
    }

    method DropNode(id: string)
      requires Valid()
      modifies this`nodes
      ensures Valid() && nodes == old(nodes) - {id}
    {
      nodes := nodes - {id};
    }

    /** The live eligible records, best rank first, whatever order the table yields them in. */
    method LiveCandidates(now: real) returns (out: seq<Entry>)
      requires Valid()
      ensures Ascending(out)
      ensures forall e :: e in out ==> IsCandidate(nodes, e.id, now, timeout) && nodes[e.id] == e
      ensures forall id :: IsCandidate(nodes, id, now, timeout) ==> nodes[id] in out
      ensures forall e :: e in out <==>
                && e.id in nodes && nodes[e.id] == e && now - e.lastSeen <= timeout
                && e.paired && e.thermal < 3 && (e.mem.None? || e.mem.value > 0)
      ensures forall i, j :: 0 <= i < j < |out| ==> out[i].id != out[j].id
    {
      var found: seq<Entry> := [];
      var todo := nodes.Keys;
      while todo != {}
        invariant todo <= nodes.Keys
        invariant forall e :: e in found ==> IsCandidate(nodes, e.id, now, timeout) && nodes[e.id] == e && e.id !in todo
        invariant forall id :: IsCandidate(nodes, id, now, timeout) && id !in todo ==> nodes[id] in found
        invariant forall i, j :: 0 <= i < j < |found| ==> found[i].id != found[j].id
      {
        var id :| id in todo;
        todo := todo - {id};
        var entry := nodes[id];
        if now - entry.lastSeen > timeout {
          continue;
        }
        if Ineligible(entry).Some? {
          continue;
        }
        found := found + [entry];
      }
      out := SortByRank(found);
      SortOrders(found);
      forall e ensures e in out <==> e in found {
        assert e in multiset(out) <==> e in multiset(found);
      }
      DistinctAfterSort(found, out);
    }

    /** Elects, with the incumbency rule the code applies to the holder of the lease. */
    method Tick(now: real) returns (winner: Option<string>, isPrimary: bool, candidates: seq<string>)
      requires Valid()
      modifies this`primary, this`leaseSince
      ensures Valid()
      ensures Elects(nodes, now, timeout, winner)
      ensures primary == winner && isPrimary == (winner == Some(nodeId))
      ensures leaseSince == if winner == old(primary) then old(leaseSince) else now
      ensures forall id :: id in candidates <==> IsCandidate(nodes, id, now, timeout)
      ensures forall id :: id in candidates <==>
                && id in nodes && now - nodes[id].lastSeen <= timeout
                && nodes[id].paired && nodes[id].thermal < 3 && (nodes[id].mem.None? || nodes[id].mem.value > 0)
      ensures candidates == [] <==> winner == None
      ensures candidates != [] ==> winner == Some(candidates[0])
    {
      var cands := LiveCandidates(now);
      winner := if cands == [] then None else Some(cands[0].id);
      if winner.Some? {
        assert cands[0] in cands;
        forall id | IsCandidate(nodes, id, now, timeout)
          ensures Le(RankOf(nodes[winner.value]), RankOf(nodes[id]))
        {
          var k :| 0 <= k < |cands| && cands[k] == nodes[id];
          RankIsTotalOrder(RankOf(cands[0]), RankOf(cands[0]));
        }
        var holder := primary;
        if holder.Some? && holder != winner {
          var i := 0;
          while i < |cands| && cands[i].id != holder.value
            invariant 0 <= i <= |cands|
          {
            i := i + 1;
          }
          if i < |cands| {
            RankIsTotalOrder(RankOf(cands[i]), RankOf(cands[0]));
            if Le(RankOf(cands[i]), RankOf(cands[0])) {
              winner := holder;
            }
          }
        }
      }
      if winner != primary {
        primary := winner;
        leaseSince := now;
      }
      isPrimary := winner == Some(nodeId);
      candidates := seq(|cands|, i requires 0 <= i < |cands| => cands[i].id);
      forall id ensures id in candidates <==> IsCandidate(nodes, id, now, timeout) {
        if id in candidates {
          var k :| 0 <= k < |candidates| && candidates[k] == id;
          assert cands[k] in cands;
        }
        if IsCandidate(nodes, id, now, timeout) {
          assert nodes[id] in cands;
          var k :| 0 <= k < |cands| && cands[k] == nodes[id];
          assert candidates[k] == id;
        }
      }
    }

    method LivePeers(now: real) returns (peers: set<string>)
      requires Valid()
      ensures forall id :: id in peers <==> id != nodeId && id in nodes && now - nodes[id].lastSeen <= timeout
    {
      peers := {};
      var todo := nodes.Keys;
      while todo != {}
        invariant todo <= nodes.Keys
        invariant forall id :: id in peers <==>
                    id != nodeId && id in nodes && id !in todo && Live(nodes[id], now, timeout)
      {
        var id :| id in todo;
        todo := todo - {id};
        if nodes[id].id == nodeId {
          continue;
        }
        if now - nodes[id].lastSeen <= timeout {
          peers := peers + {id};
        }
      }
    }
  }

  function OwnAdvert(id: string, priority: int, role: Role, thermal: int, mem: int,
                     paired: bool, primary: Option<string>, seqNo: nat): Advert
  {
    Advert(id, Reading(priority), Reading(thermal), Reading(mem), paired, role,
           if primary.Some? then primary.value else "", Reading(seqNo))
  }

  lemma DistinctAfterSort(found: seq<Entry>, out: seq<Entry>)
    requires multiset(found) == multiset(out)
    requires forall i, j :: 0 <= i < j < |found| ==> found[i].id != found[j].id
    ensures forall i, j :: 0 <= i < j < |out| ==> out[i].id != out[j].id
  {
    forall i, j | 0 <= i < j < |out| && out[i].id == out[j].id
      ensures false
    {
      assert out[i] in multiset(found) && out[j] in multiset(found);
      var k :| 0 <= k < |found| && found[k] == out[i];
      var l :| 0 <= l < |found| && found[l] == out[j];
      assert k == l;
      assert out[i] == out[j];
      TwiceInBag(out, i, j);
      OnceInBag(found, k);
    }
  }

  lemma TwiceInBag(s: seq<Entry>, i: nat, j: nat)
    requires i < j < |s| && s[i] == s[j]
    ensures multiset(s)[s[i]] >= 2
  {
    assert s == s[..j] + [s[j]] + s[j + 1..];
    assert s[i] in s[..j];
  }

  lemma OnceInBag(s: seq<Entry>, k: nat)
    requires k < |s| && forall l :: 0 <= l < |s| && l != k ==> s[l] != s[k]
    ensures multiset(s)[s[k]] == 1
  {
    assert s == s[..k] + [s[k]] + s[k + 1..];
    assert s[k] !in s[..k] && s[k] !in s[k + 1..];
  }

  // ---- what an observer remembers over a whole history ----

  datatype Event = Heard(advert: Advert, at: real) | Dropped(id: string)

  /** The table after a history, earliest event first. */
  function TableAfter(history: seq<Event>): Table {
    if history == [] then map[]
    else
      var before := TableAfter(history[..|history| - 1]);
      match history[|history| - 1]
      case Heard(a, at) => if a.id == "" then before else Observed(before, a, at)
      case Dropped(id) => before - {id}
  }

  /** When a peer was last heard, read off the history alone. */
  function LastHeard(history: seq<Event>, id: string): Option<real> {
    if history == [] || id == "" then None
    else match history[|history| - 1]
      case Heard(a, at) => if a.id == id then Some(at) else LastHeard(history[..|history| - 1], id)
      case Dropped(d) => if d == id then None else LastHeard(history[..|history| - 1], id)
  }

  /** Every accepted advertisement renews the lease: newer, equal, rolled back or unreadable. */
  lemma {:induction false} LastSeenIsLastHeard(history: seq<Event>, id: string)
    ensures WellKeyed(TableAfter(history))
    ensures id in TableAfter(history) <==> LastHeard(history, id).Some?
    ensures id in TableAfter(history) ==> TableAfter(history)[id].lastSeen == LastHeard(history, id).value
  {
    if history != [] {
      LastSeenIsLastHeard(history[..|history| - 1], id);
    }
  }

  /** No peer goes blind: one that was heard within the timeout, and not dropped since, is
      still live, whatever mixture of duplicates and restarts came in between. */
  lemma {:induction false} HeardWithinTimeoutStaysLive(history: seq<Event>, i: nat, now: real, timeout: real)
    requires i < |history| && history[i].Heard? && history[i].advert.id != ""
    requires forall k :: i < k < |history| && history[k].Heard? ==> history[k].at >= history[i].at
    requires forall k :: i < k < |history| ==> history[k] != Dropped(history[i].advert.id)
    requires now - history[i].at <= timeout
    ensures var id := history[i].advert.id;
            id in TableAfter(history) && Live(TableAfter(history)[id], now, timeout)
  {
    LastHeardNotBefore(history, i);
    LastSeenIsLastHeard(history, history[i].advert.id);
  }

  lemma {:induction false} LastHeardNotBefore(history: seq<Event>, i: nat)
    requires i < |history| && history[i].Heard? && history[i].advert.id != ""
    requires forall k :: i < k < |history| && history[k].Heard? ==> history[k].at >= history[i].at
    requires forall k :: i < k < |history| ==> history[k] != Dropped(history[i].advert.id)
    ensures LastHeard(history, history[i].advert.id).Some?
    ensures LastHeard(history, history[i].advert.id).value >= history[i].at
  {
    if i < |history| - 1 {
      LastHeardNotBefore(history[..|history| - 1], i);
    }
  }
}
