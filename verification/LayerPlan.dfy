/** Which device holds how many layers: the planner, and what changes between two plans. */
module LayerPlan {
  import opened Options
  import opened Common
  import opened Ranking

  const THERMAL_REFUSE_STATUS := 3

  /** `available` is 0 and `advertised` is 0 when the peer says nothing usable. */
  datatype Node = Node(id: string, available: int, advertised: int, thermal: Option<int>, unpaired: bool)

  datatype Reason = Unpaired | Hot | NoRoom | Excluded | HeldOut

  type Split = map<string, int>

  /** `remote` and `local` are the plan's own totals. */
  datatype Plan = Plan(assignments: Split, remote: int, local: int, skipped: map<string, Reason>,
                       headroom: map<string, int>)

  /** What stays the same from one planning to the next. */
  datatype Model = Model(total: int, bytesPerLayer: int, cachePerLayer: int, slots: int, keepLocal: int, reserve: int)

  datatype Candidate = Candidate(id: string, layers: int, room: int)

  /** Bytes a device can safely hold, judged by its measured memory. */
  function UsableHeadroom(available: int, advertised: int, reserve: int): (room: int)
    ensures 0 <= room
    ensures available > 0 && reserve >= 0 ==> room <= available
    ensures available > 0 && reserve >= 0 && advertised > 0 ==> room <= advertised
    ensures room > 0 ==> available > 0 && room + reserve <= available
  {
    if available <= 0 then 0
    else Max(0, (if advertised != 0 then Min(available, advertised) else available) - reserve)
  }

  /** And it is the most that leaves the reserve free. */
  lemma RoomIsLargest(available: int, advertised: int, reserve: int, r: int)
    requires available > 0 && r >= 0
    ensures r <= UsableHeadroom(available, advertised, reserve) <==>
              r == 0 || (r + reserve <= available && (advertised != 0 ==> r + reserve <= advertised))
    ensures UsableHeadroom(0, advertised, reserve) == 0
  {
  }

  function LayerCost(m: Model): (cost: int)
    ensures cost > 0
  {
    Max(1, m.bytesPerLayer) + CacheCost(m)
  }

  function CacheCost(m: Model): (cost: int)
    ensures cost >= 0
  {
    var cache, slots := Max(0, m.cachePerLayer), Max(1, m.slots);
    ProductIsNatural(cache, slots);
    cache * slots
  }

  lemma ProductIsNatural(a: int, b: int)
    requires a >= 0 && b >= 0
    ensures a * b >= 0
  {
  }

  /** The layers that may leave this host. */
  function Budget(m: Model): (b: nat)
    ensures b <= Max(0, m.total)
    ensures m.keepLocal > 0 ==> b + Min(m.keepLocal, Max(0, m.total)) == Max(0, m.total)
    ensures m.keepLocal <= 0 && m.total > 0 ==> b == m.total
  {
    var total := Max(0, m.total);
    Max(0, total - Max(0, Min(m.keepLocal, total)))
  }

  predicate TooHot(n: Node) {
    n.thermal.Some? && n.thermal.value >= THERMAL_REFUSE_STATUS
  }

  function Room(m: Model, n: Node): (room: nat) {
    UsableHeadroom(n.available, n.advertised, m.reserve)
  }

  /** How many layers a device could hold: none when it is unpaired or too hot. */
  function Capacity(m: Model, n: Node): (c: nat) {
    if n.id == "" || n.unpaired || TooHot(n) then 0 else Room(m, n) / LayerCost(m)
  }

  /** The capacity is how often the cost of a layer, its weights and its cache in every slot, goes
      into the room of a paired device that is not too hot. */
  lemma CapacityOverFields(m: Model, n: Node)
    ensures var weights := if m.bytesPerLayer < 1 then 1 else m.bytesPerLayer;
            var cache := (if m.cachePerLayer < 0 then 0 else m.cachePerLayer) * (if m.slots < 1 then 1 else m.slots);
            var room := UsableHeadroom(n.available, n.advertised, m.reserve);
            if n.id != "" && !n.unpaired && (n.thermal.None? || n.thermal.value < 3)
            then Capacity(m, n) * (weights + cache) <= room < Capacity(m, n) * (weights + cache) + weights + cache
            else Capacity(m, n) == 0
  {
    var cost, room := LayerCost(m), Room(m, n);
    assert room == room / cost * cost + room % cost;
  }

  function TotalCapacity(m: Model, nodes: seq<Node>): (c: nat) {
    if nodes == [] then 0 else TotalCapacity(m, nodes[..|nodes| - 1]) + Capacity(m, nodes[|nodes| - 1])
  }

  /** Layers over all the devices of a split. */
  ghost function Layers(s: Split): int {
    if s == map[] then 0
    else
      var d :| d in s;
      s[d] + Layers(s - {d})
  }

  lemma {:induction false} LayersWithout(s: Split, d: string)
    requires d in s
    ensures Layers(s) == s[d] + Layers(s - {d})
    decreases |s|
  {
    var e :| e in s && Layers(s) == s[e] + Layers(s - {e});
    if e != d {
      LayersWithout(s - {e}, d);
      LayersWithout(s - {d}, e);
      assert s - {e} - {d} == s - {d} - {e};
    }
  }

  lemma LayersWith(s: Split, d: string, n: int)
    requires d !in s
    ensures Layers(s[d := n]) == Layers(s) + n
  {
    LayersWithout(s[d := n], d);
    assert s[d := n] - {d} == s;
  }

  ghost predicate Positive(s: Split) {
    forall d :: d in s ==> s[d] > 0
  }

  lemma {:induction false} LayersPositive(s: Split)
    requires Positive(s)
    ensures Layers(s) >= |s| && (Layers(s) == 0 <==> s == map[])
    decreases |s|
  {
    if s != map[] {
      var d :| d in s;
      LayersWithout(s, d);
      LayersPositive(s - {d});
      assert |s| == |(s - {d}).Keys| + 1 by {
        assert s.Keys == (s - {d}).Keys + {d};
      }
    }
  }

  /** A split whose devices all keep their layers, or lose all of them. */
  ghost predicate PartOf(s: Split, t: Split) {
    s.Keys <= t.Keys && forall d :: d in s ==> s[d] == t[d]
  }

  lemma {:induction false} PartHoldsLess(s: Split, t: Split)
    requires Positive(t) && PartOf(s, t)
    ensures Positive(s) && Layers(s) <= Layers(t)
    decreases |t|
  {
    if s == map[] {
      LayersPositive(t);
    } else {
      var d :| d in s;
      LayersWithout(s, d);
      LayersWithout(t, d);
      assert |t| == |(t - {d}).Keys| + 1 by {
        assert t.Keys == (t - {d}).Keys + {d};
      }
      PartHoldsLess(s - {d}, t - {d});
    }
  }

  method SumLayers(s: Split) returns (n: int)
    ensures n == Layers(s)
  {
    n := 0;
    var rest := s;
    while rest != map[]
      invariant n + Layers(rest) == Layers(s)
      decreases |rest|
    {
      var d :| d in rest;
      LayersWithout(rest, d);
      assert |(rest - {d}).Keys| < |rest.Keys| by {
        assert rest.Keys == (rest - {d}).Keys + {d};
      }
      n := n + rest[d];
      rest := rest - {d};
    }
  }

  // ---- the planner ----

  /** Most headroom first, then by name. */
  predicate Before(a: Candidate, b: Candidate) {
    a.room > b.room || (a.room == b.room && TextLe(a.id, b.id))
  }

  ghost predicate Sorted(s: seq<Candidate>) {
    forall i, j :: 0 <= i < j < |s| ==> Before(s[i], s[j])
  }

  ghost predicate Distinct(s: seq<Candidate>) {
    forall i, j :: 0 <= i < j < |s| ==> s[i].id != s[j].id
  }

  lemma BeforeTransitive(a: Candidate, b: Candidate, c: Candidate)
    requires Before(a, b) && Before(b, c)
    ensures Before(a, c)
  {
    if a.room == b.room == c.room {
      TextTransitive(a.id, b.id, c.id);
    }
  }

  /** Python's stable sort, one element at a time. */
  function Insert(s: seq<Candidate>, c: Candidate): seq<Candidate> {
    if s == [] || Before(s[|s| - 1], c) then s + [c] else Insert(s[..|s| - 1], c) + [s[|s| - 1]]
  }

  function Ranked(s: seq<Candidate>): seq<Candidate> {
    if s == [] then [] else Insert(Ranked(s[..|s| - 1]), s[|s| - 1])
  }

  function Sum(s: seq<Candidate>): int {
    if s == [] then 0 else Sum(s[..|s| - 1]) + s[|s| - 1].layers
  }

  lemma {:induction false} InsertAdds(s: seq<Candidate>, c: Candidate)
    ensures |Insert(s, c)| == |s| + 1 && forall x :: x in Insert(s, c) <==> x in s || x == c
  {
    if s != [] && !Before(s[|s| - 1], c) {
      InsertAdds(s[..|s| - 1], c);
      assert s == s[..|s| - 1] + [s[|s| - 1]];
    }
  }

  lemma {:induction false} InsertSum(s: seq<Candidate>, c: Candidate)
    ensures Sum(Insert(s, c)) == Sum(s) + c.layers
  {
    if s == [] || Before(s[|s| - 1], c) {
      assert (s + [c])[..|s|] == s;
    } else {
      var t := Insert(s[..|s| - 1], c);
      InsertSum(s[..|s| - 1], c);
      assert (t + [s[|s| - 1]])[..|t|] == t;
    }
  }

  lemma {:induction false} InsertSorted(s: seq<Candidate>, c: Candidate)
    requires Sorted(s)
    ensures Sorted(Insert(s, c))
  {
    if s == [] {
    } else if Before(s[|s| - 1], c) {
      forall i | 0 <= i < |s| ensures Before(s[i], c) {
        if i < |s| - 1 {
          BeforeTransitive(s[i], s[|s| - 1], c);
        }
      }
    } else {
      var init, last := s[..|s| - 1], s[|s| - 1];
      InsertSorted(init, c);
      InsertAdds(init, c);
      TextTotal(last.id, c.id);
      forall x | x in Insert(init, c) ensures Before(x, last) {
        if x != c {
          var i :| 0 <= i < |init| && init[i] == x;
        }
      }
      AppendSorted(Insert(init, c), last);
    }
  }

  lemma AppendSorted(s: seq<Candidate>, c: Candidate)
    requires Sorted(s) && forall x :: x in s ==> Before(x, c)
    ensures Sorted(s + [c])
  {
  }

  lemma {:induction false} InsertDistinct(s: seq<Candidate>, c: Candidate)
    requires Distinct(s) && forall x :: x in s ==> x.id != c.id
    ensures Distinct(Insert(s, c))
  {
    if s != [] && !Before(s[|s| - 1], c) {
      InsertDistinct(s[..|s| - 1], c);
      InsertAdds(s[..|s| - 1], c);
      forall x | x in Insert(s[..|s| - 1], c) ensures x.id != s[|s| - 1].id {
        if x != c {
          var i :| 0 <= i < |s| - 1 && s[i] == x;
        }
      }
    }
  }

  /** Sorting keeps the elements and puts them in rank order. */
  lemma {:induction false} RankedIsSorted(s: seq<Candidate>)
    ensures Sorted(Ranked(s)) && Sum(Ranked(s)) == Sum(s) && |Ranked(s)| == |s|
    ensures forall x :: x in Ranked(s) <==> x in s
    ensures Distinct(s) ==> Distinct(Ranked(s))
  {
    hide Insert, Before, Sorted, Distinct;
    if s == [] {
      EmptyIsRanked();
    } else {
      var init, last := s[..|s| - 1], s[|s| - 1];
      RankedIsSorted(init);
      InsertSorted(Ranked(init), last);
      InsertAdds(Ranked(init), last);
      InsertSum(Ranked(init), last);
      assert s == init + [last];
      DistinctAppends(init, last);
      if Distinct(s) {
        InsertDistinct(Ranked(init), last);
      }
    }
  }

  lemma EmptyIsRanked()
    ensures Sorted([]) && Distinct([])
  {
  }

  lemma DistinctAppends(s: seq<Candidate>, c: Candidate)
    ensures Distinct(s + [c]) <==> Distinct(s) && forall x :: x in s ==> x.id != c.id
  {
    if Distinct(s + [c]) {
      forall i, j | 0 <= i < j < |s| ensures s[i].id != s[j].id {
        assert (s + [c])[i] == s[i] && (s + [c])[j] == s[j];
      }
      forall i | 0 <= i < |s| ensures s[i].id != c.id {
        assert (s + [c])[i] == s[i] && (s + [c])[|s|] == c;
      }
    }
  }

  /** The devices worth asking, in the order they were listed. */
  function Candidates(m: Model, nodes: seq<Node>): seq<Candidate> {
    if nodes == [] then []
    else
      var n := nodes[|nodes| - 1];
      Candidates(m, nodes[..|nodes| - 1])
      + if Capacity(m, n) > 0 then [Candidate(n.id, Capacity(m, n), Room(m, n))] else []
  }

  /** Why each of the others was passed over. */
  function Skipped(m: Model, nodes: seq<Node>): map<string, Reason> {
    if nodes == [] then map[]
    else
      var n, rest := nodes[|nodes| - 1], Skipped(m, nodes[..|nodes| - 1]);
      if n.id == "" then rest
      else if n.unpaired then rest[n.id := Unpaired]
      else if TooHot(n) then rest[n.id := Hot]
      else if Capacity(m, n) == 0 then rest[n.id := NoRoom]
      else rest
  }

  function Headroom(m: Model, nodes: seq<Node>): map<string, int> {
    if nodes == [] then map[]
    else
      var n, rest := nodes[|nodes| - 1], Headroom(m, nodes[..|nodes| - 1]);
      if n.id == "" || n.unpaired || TooHot(n) then rest else rest[n.id := Room(m, n)]
  }

  /** With distinct names, why each device was passed over and what was measured of the others. */
  lemma {:induction false} SurveyOverFields(m: Model, nodes: seq<Node>, n: Node)
    requires DistinctIds(nodes) && n in nodes && n.id != ""
    ensures var hot := n.thermal.Some? && n.thermal.value >= 3;
            && (if n.unpaired then n.id in Skipped(m, nodes) && Skipped(m, nodes)[n.id] == Unpaired
                else if hot then n.id in Skipped(m, nodes) && Skipped(m, nodes)[n.id] == Hot
                else if Capacity(m, n) == 0 then n.id in Skipped(m, nodes) && Skipped(m, nodes)[n.id] == NoRoom
                else n.id !in Skipped(m, nodes))
            && (n.id in Headroom(m, nodes) <==> !n.unpaired && !hot)
            && (n.id in Headroom(m, nodes) ==>
                  Headroom(m, nodes)[n.id] == UsableHeadroom(n.available, n.advertised, m.reserve))
  {
    hide Capacity, UsableHeadroom;
    var init, last := nodes[..|nodes| - 1], nodes[|nodes| - 1];
    if n == last {
      NotYetNamed(m, init, n.id);
    } else {
      SurveyOverFields(m, init, n);
    }
  }

  lemma {:induction false} NotYetNamed(m: Model, nodes: seq<Node>, id: string)
    requires forall n :: n in nodes ==> n.id != id
    ensures id !in Skipped(m, nodes) && id !in Headroom(m, nodes)
  {
    if nodes != [] {
      NotYetNamed(m, nodes[..|nodes| - 1], id);
    }
  }

  /** Nobody else is named. */
  lemma {:induction false} OnlyListedAreNamed(m: Model, nodes: seq<Node>, id: string)
    requires id in Skipped(m, nodes) || id in Headroom(m, nodes)
    ensures id != "" && exists n :: n in nodes && n.id == id
  {
    hide Capacity, Room;
    var init, last := nodes[..|nodes| - 1], nodes[|nodes| - 1];
    if id in Skipped(m, init) || id in Headroom(m, init) {
      OnlyListedAreNamed(m, init, id);
    } else {
      assert last in nodes && last.id == id;
    }
  }

  /** Gives each device in turn all it can hold while layers are left. */
  function Filled(s: seq<Candidate>, budget: int, given: Split): Split
    decreases |s|
  {
    if s == [] || budget <= 0 then given
    else
      var take := Min(s[0].layers, budget);
      Filled(s[1..], budget - take, given[s[0].id := take])
  }

  function Assigned(m: Model, nodes: seq<Node>): Split {
    Filled(Ranked(Candidates(m, nodes)), Budget(m), map[])
  }

  ghost function SplitPlan(m: Model, nodes: seq<Node>): Plan {
    var remote := Layers(Assigned(m, nodes));
    Plan(Assigned(m, nodes), remote, Max(0, m.total) - remote, Skipped(m, nodes), Headroom(m, nodes))
  }

  method PlanLayerSplit(m: Model, nodes: seq<Node>) returns (plan: Plan)
    ensures plan == SplitPlan(m, nodes)
  {
    var candidates, skipped, headroom := Survey(m, nodes);
    forall c | c in Ranked(candidates) ensures c.layers > 0 {
      CandidatesFit(m, nodes, c);
    }
    var assignments := Fill(Ranked(candidates), Budget(m));
    var remote := SumLayers(assignments);
    plan := Plan(assignments, remote, Max(0, m.total) - remote, skipped, headroom);
  }

  /** The first loop: who can hold what, and why the others cannot. */
  method Survey(m: Model, nodes: seq<Node>)
    returns (candidates: seq<Candidate>, skipped: map<string, Reason>, headroom: map<string, int>)
    ensures candidates == Candidates(m, nodes) && skipped == Skipped(m, nodes) && headroom == Headroom(m, nodes)
  {
    var costPerLayer := LayerCost(m);
    skipped, headroom, candidates := map[], map[], [];
    for i := 0 to |nodes|
      invariant skipped == Skipped(m, nodes[..i])
      invariant headroom == Headroom(m, nodes[..i])
      invariant candidates == Candidates(m, nodes[..i])
    {
      var node := nodes[i];
      assert nodes[..i + 1][..i] == nodes[..i];
      if node.id == "" {
        continue;
      }
      if node.unpaired {
        skipped := skipped[node.id := Unpaired];
        continue;
      }
      if TooHot(node) {
        skipped := skipped[node.id := Hot];
        continue;
      }
      var room := UsableHeadroom(node.available, node.advertised, m.reserve);
      headroom := headroom[node.id := room];
      var layers := room / costPerLayer;
      assert layers == Capacity(m, node);
      if layers <= 0 {
        skipped := skipped[node.id := NoRoom];
      } else {
        candidates := candidates + [Candidate(node.id, layers, room)];
      }
    }
    assert nodes[..|nodes|] == nodes;
  }

  /** The second loop: the ranked devices take what they can hold. */
  method Fill(candidates: seq<Candidate>, budget: nat) returns (assignments: Split)
    requires forall c :: c in candidates ==> c.layers > 0
    ensures assignments == Filled(candidates, budget, map[])
  {
    var remaining := budget;
    assignments := map[];
    for k := 0 to |candidates|
      invariant remaining >= 0
      invariant Filled(candidates[k..], remaining, assignments) == Filled(candidates, budget, map[])
    {
      if remaining <= 0 {
        return;
      }
      var take := Min(candidates[k].layers, remaining);
      assert candidates[k..][1..] == candidates[k + 1..];
      assignments := assignments[candidates[k].id := take];
      remaining := remaining - take;
    }
  }

  lemma {:induction false} CandidatesFit(m: Model, nodes: seq<Node>, c: Candidate)
    requires c in Ranked(Candidates(m, nodes))
    ensures exists n :: n in nodes && n.id == c.id && c.id != "" && c.room == Room(m, n)
                        && 0 < c.layers == Capacity(m, n)
  {
    RankedIsSorted(Candidates(m, nodes));
    FromNodes(m, nodes, c);
  }

  lemma {:induction false} FromNodes(m: Model, nodes: seq<Node>, c: Candidate)
    requires c in Candidates(m, nodes)
    ensures exists n :: n in nodes && n.id == c.id && c.id != "" && c.room == Room(m, n)
                        && 0 < c.layers == Capacity(m, n)
  {
    var init := nodes[..|nodes| - 1];
    if c in Candidates(m, init) {
      FromNodes(m, init, c);
    } else {
      assert nodes[|nodes| - 1].id == c.id;
    }
  }

  // ---- what a plan promises ----

  ghost predicate DistinctIds(nodes: seq<Node>) {
    forall i, j :: 0 <= i < j < |nodes| ==> nodes[i].id != nodes[j].id
  }

  /** No device is given more than it can hold, nothing more than the budget leaves the host,
      and every layer is somewhere. */
  lemma PlanIsSafe(m: Model, nodes: seq<Node>)
    ensures var plan := SplitPlan(m, nodes);
            && plan.remote + plan.local == Max(0, m.total) && plan.remote == Layers(plan.assignments)
            && 0 <= plan.remote <= Budget(m) && Positive(plan.assignments)
    ensures forall d :: d in SplitPlan(m, nodes).assignments ==>
              exists n :: n in nodes && n.id == d && SplitPlan(m, nodes).assignments[d] <= Capacity(m, n)
  {
    var ranked := Ranked(Candidates(m, nodes));
    forall c | c in ranked ensures c.layers > 0 {
      CandidatesFit(m, nodes, c);
    }
    FilledWithin(ranked, Budget(m), map[]);
    LayersPositive(Assigned(m, nodes));
    forall d | d in Assigned(m, nodes)
      ensures exists n :: n in nodes && n.id == d && Assigned(m, nodes)[d] <= Capacity(m, n)
    {
      FilledFits(ranked, Budget(m), map[], d);
      var c :| c in ranked && c.id == d && Assigned(m, nodes)[d] <= c.layers;
      CandidatesFit(m, nodes, c);
    }
  }

  lemma {:induction false} FilledWithin(s: seq<Candidate>, budget: nat, given: Split)
    requires Positive(given) && forall c :: c in s ==> c.layers > 0
    ensures var r := Filled(s, budget, given); Positive(r) && Layers(r) <= Layers(given) + budget
    decreases |s|
  {
    if s != [] && budget > 0 {
      var take := Min(s[0].layers, budget);
      var next := given[s[0].id := take];
      LayersWith(given - {s[0].id}, s[0].id, take);
      assert next == (given - {s[0].id})[s[0].id := take];
      PartHoldsLess(given - {s[0].id}, given);
      FilledWithin(s[1..], budget - take, next);
    }
  }

  lemma {:induction false} FilledFits(s: seq<Candidate>, budget: int, given: Split, d: string)
    requires d in Filled(s, budget, given)
    ensures (d in given && Filled(s, budget, given)[d] == given[d])
            || exists c :: c in s && c.id == d && Filled(s, budget, given)[d] <= c.layers
    decreases |s|
  {
    if s != [] && budget > 0 {
      var take := Min(s[0].layers, budget);
      FilledFits(s[1..], budget - take, given[s[0].id := take], d);
    }
  }

  /** With distinct device names the plan also wastes nothing: it moves as many layers as the
      budget and the devices allow. */
  lemma PlanIsMaximal(m: Model, nodes: seq<Node>)
    requires DistinctIds(nodes)
    ensures SplitPlan(m, nodes).remote == Min(Budget(m), TotalCapacity(m, nodes))
  {
    var cs := Candidates(m, nodes);
    RankedIsSorted(cs);
    CandidatesAddUp(m, nodes);
    forall c | c in Ranked(cs) ensures c.layers > 0 {
      CandidatesFit(m, nodes, c);
    }
    SumFromFront(Ranked(cs));
    FilledExactly(Ranked(cs), Budget(m), map[]);
  }

  function FrontSum(s: seq<Candidate>): int {
    if s == [] then 0 else s[0].layers + FrontSum(s[1..])
  }

  lemma {:induction false} SumFromFront(s: seq<Candidate>)
    ensures Sum(s) == FrontSum(s)
  {
    if |s| > 1 {
      SumFromFront(s[1..]);
      SumFromFront(s[..|s| - 1]);
      SumFromFront(s[1..|s| - 1]);
      assert s[1..][..|s| - 2] == s[1..|s| - 1] && s[..|s| - 1][1..] == s[1..|s| - 1];
    } else if |s| == 1 {
      assert Sum(s[..0]) == 0 && FrontSum(s[1..]) == 0;
    }
  }

  lemma {:induction false} CandidatesAddUp(m: Model, nodes: seq<Node>)
    requires DistinctIds(nodes)
    ensures Sum(Candidates(m, nodes)) == TotalCapacity(m, nodes) && Distinct(Candidates(m, nodes))
  {
    if nodes != [] {
      var init, n := nodes[..|nodes| - 1], nodes[|nodes| - 1];
      hide Distinct, Capacity, Room;
      CandidatesAddUp(m, init);
      var cs := Candidates(m, init);
      forall c | c in cs ensures c.id != n.id {
        FromNodes(m, init, c);
      }
      if Capacity(m, n) > 0 {
        var c := Candidate(n.id, Capacity(m, n), Room(m, n));
        assert Candidates(m, nodes) == cs + [c];
        assert (cs + [c])[..|cs|] == cs;
        DistinctAppends(cs, c);
      } else {
        assert Candidates(m, nodes) == cs;
      }
    }
  }

  lemma {:induction false} FilledExactly(s: seq<Candidate>, budget: nat, given: Split)
    requires Distinct(s) && forall c :: c in s ==> c.layers > 0 && c.id !in given
    ensures Layers(Filled(s, budget, given)) == Layers(given) + Min(budget, FrontSum(s))
    decreases |s|
  {
    if s != [] {
      FrontSumPositive(s[1..]);
      if budget > 0 {
        var take := Min(s[0].layers, budget);
        LayersWith(given, s[0].id, take);
        forall c | c in s[1..] ensures c.id !in given[s[0].id := take] {
          assert c in s;
        }
        FilledExactly(s[1..], budget - take, given[s[0].id := take]);
      }
    }
  }

  lemma {:induction false} FrontSumPositive(s: seq<Candidate>)
    requires forall c :: c in s ==> c.layers > 0
    ensures FrontSum(s) >= 0
  {
    if s != [] {
      FrontSumPositive(s[1..]);
    }
  }

  /** A device is used only once every device ranked before it is full. */
  lemma FullBeforeNext(m: Model, nodes: seq<Node>, a: Node, b: Node)
    requires DistinctIds(nodes) && a in nodes && b in nodes && a != b && Capacity(m, a) > 0
    requires Before(Candidate(a.id, 0, Room(m, a)), Candidate(b.id, 0, Room(m, b)))
    requires b.id in Assigned(m, nodes)
    ensures a.id in Assigned(m, nodes) && Assigned(m, nodes)[a.id] == Capacity(m, a)
  {
    var cs := Candidates(m, nodes);
    RankedIsSorted(cs);
    CandidatesAddUp(m, nodes);
    forall c | c in Ranked(cs) ensures c.layers > 0 {
      CandidatesFit(m, nodes, c);
    }
    ToCandidates(m, nodes, a);
    FilledFits(Ranked(cs), Budget(m), map[], b.id);
    var cb :| cb in Ranked(cs) && cb.id == b.id;
    CandidatesFit(m, nodes, cb);
    FullByRank(Ranked(cs), Budget(m), Candidate(a.id, Capacity(m, a), Room(m, a)), cb);
  }

  /** Which of two devices comes before: the one with more room, by name among equals. */
  lemma RoomiestFirst(m: Model, nodes: seq<Node>, a: Node, b: Node)
    requires DistinctIds(nodes) && a in nodes && b in nodes && a != b && Capacity(m, a) > 0
    requires var ra := UsableHeadroom(a.available, a.advertised, m.reserve);
             var rb := UsableHeadroom(b.available, b.advertised, m.reserve);
             ra > rb || (ra == rb && exists k :: ComesFirstAt(a.id, b.id, k))
    requires b.id in Assigned(m, nodes)
    ensures a.id in Assigned(m, nodes) && Assigned(m, nodes)[a.id] == Capacity(m, a)
  {
    TextIsLexicographic(a.id, b.id);
    FullBeforeNext(m, nodes, a, b);
  }

  lemma FullByRank(ranked: seq<Candidate>, budget: nat, a: Candidate, b: Candidate)
    requires Sorted(ranked) && Distinct(ranked) && forall c :: c in ranked ==> c.layers > 0
    requires a in ranked && b in ranked && a.id != b.id && Before(a, b) && b.id in Filled(ranked, budget, map[])
    ensures a.id in Filled(ranked, budget, map[]) && Filled(ranked, budget, map[])[a.id] == a.layers
  {
    var i :| 0 <= i < |ranked| && ranked[i] == a;
    var j :| 0 <= j < |ranked| && ranked[j] == b;
    if j < i {
      assert Before(b, a);
      TextAntisymmetric(a.id, b.id);
    }
    FilledInOrder(ranked, budget, map[], i, j);
  }

  lemma {:induction false} ToCandidates(m: Model, nodes: seq<Node>, n: Node)
    requires n in nodes && Capacity(m, n) > 0
    ensures Candidate(n.id, Capacity(m, n), Room(m, n)) in Candidates(m, nodes)
  {
    if n != nodes[|nodes| - 1] {
      ToCandidates(m, nodes[..|nodes| - 1], n);
    }
  }

  lemma {:induction false} FilledInOrder(s: seq<Candidate>, budget: nat, given: Split, i: nat, j: nat)
    requires Distinct(s) && i < j < |s|
    requires forall c :: c in s ==> c.layers > 0 && c.id !in given
    requires s[j].id in Filled(s, budget, given)
    ensures s[i].id in Filled(s, budget, given) && Filled(s, budget, given)[s[i].id] == s[i].layers
    decreases |s|
  {
    var take := Min(s[0].layers, budget);
    var next := given[s[0].id := take];
    assert s[1..][j - 1] == s[j];
    if budget > 0 {
      if i == 0 {
        Untouched(s[1..], budget - take, next, s[0].id);
      } else {
        forall c | c in s[1..] ensures c.id !in next {
          assert c in s;
        }
        FilledInOrder(s[1..], budget - take, next, i - 1, j - 1);
      }
    }
  }

  lemma {:induction false} Untouched(s: seq<Candidate>, budget: int, given: Split, d: string)
    requires d in given && forall c :: c in s ==> c.id != d
    ensures d in Filled(s, budget, given) && Filled(s, budget, given)[d] == given[d]
    decreases |s|
  {
    if s != [] && budget > 0 {
      var take := Min(s[0].layers, budget);
      Untouched(s[1..], budget - take, given[s[0].id := take], d);
    }
  }

  // ---- comparing and shrinking splits ----

  datatype Difference = Difference(detach: set<string>, attach: set<string>, resize: set<string>, delta: int) {
    predicate Changed() {
      detach != {} || attach != {} || resize != {}
    }
  }

  method SplitDifference(current: Split, desired: Split) returns (diff: Difference)
    ensures diff.Changed() <==> current != desired
    ensures diff.detach == current.Keys - desired.Keys && diff.attach == desired.Keys - current.Keys
    ensures forall d :: d in diff.resize <==> d in current && d in desired && current[d] != desired[d]
    ensures Layers(desired) == Layers(current) + diff.delta
  {
    var now := SumLayers(desired);
    var before := SumLayers(current);
    var resized := set d | d in current && d in desired && current[d] != desired[d];
    diff := Difference(current.Keys - desired.Keys, desired.Keys - current.Keys, resized, now - before);
    if !diff.Changed() {
      forall d | d in current ensures d in desired && current[d] == desired[d] {
        assert d !in diff.detach && d !in diff.resize;
      }
      forall d | d in desired ensures d in current {
        assert d !in diff.attach;
      }
      assert current == desired;
    }
  }

  function RoomOf(headroom: map<string, int>, d: string): int {
    if d in headroom then headroom[d] else 0
  }

  predicate Weaker(headroom: map<string, int>, a: string, b: string) {
    RoomOf(headroom, a) < RoomOf(headroom, b)
    || (RoomOf(headroom, a) == RoomOf(headroom, b) && TextLe(a, b))
  }

  /** The device with the least measured headroom, the first by name among equals. */
  ghost predicate Weakest(s: Split, headroom: map<string, int>, d: string) {
    d in s && forall e :: e in s ==> Weaker(headroom, d, e)
  }

  /** An unmeasured device counts as having no headroom; among equals the first by name goes. */
  lemma WeakestOverFields(s: Split, headroom: map<string, int>, d: string, e: string)
    requires Weakest(s, headroom, d) && e in s
    ensures var rd, re := if d in headroom then headroom[d] else 0, if e in headroom then headroom[e] else 0;
            rd < re || (rd == re && exists k :: ComesFirstAt(d, e, k))
  {
    assert Weaker(headroom, d, e);
    TextIsLexicographic(d, e);
  }

  lemma {:induction false} WeakestExists(s: Split, headroom: map<string, int>)
    requires s != map[]
    ensures exists d :: Weakest(s, headroom, d)
    decreases |s|
  {
    var d :| d in s;
    TextReflexive(d);
    if s - {d} == map[] {
      forall e | e in s ensures e == d {
        assert e == d || e in s - {d};
      }
      assert Weakest(s, headroom, d);
    } else {
      assert |(s - {d}).Keys| < |s.Keys| by {
        assert s.Keys == (s - {d}).Keys + {d};
      }
      WeakestExists(s - {d}, headroom);
      var e :| Weakest(s - {d}, headroom, e);
      TextTotal(d, e);
      if Weaker(headroom, d, e) {
        forall f | f in s ensures Weaker(headroom, d, f) {
          if f != d {
            WeakerTransitive(headroom, d, e, f);
          }
        }
        assert Weakest(s, headroom, d);
      } else {
        assert Weakest(s, headroom, e);
      }
    }
  }

  ghost function WeakestOf(s: Split, headroom: map<string, int>): (d: string)
    requires s != map[]
    ensures Weakest(s, headroom, d)
  {
    WeakestExists(s, headroom);
    var d :| Weakest(s, headroom, d);
    d
  }

  /** A split without its weakest device. */
  ghost function Degraded(s: Split, headroom: map<string, int>): Split {
    if s == map[] then map[] else s - {WeakestOf(s, headroom)}
  }

  method DegradeSplit(current: Split, headroom: map<string, int>, drop: Option<string>)
    returns (remaining: Split, dropped: Option<string>)
    ensures drop.None? ==> remaining == Degraded(current, headroom)
    ensures dropped.None? <==> current == map[]
    ensures dropped.Some? ==>
              && dropped.value in current && remaining == current - {dropped.value}
              && Layers(remaining) == Layers(current) - current[dropped.value]
              && if drop.Some? && drop.value in current then dropped == drop
                 else Weakest(current, headroom, dropped.value)
    ensures dropped.None? ==> remaining == map[]
  {
    if current == map[] {
      return map[], None;
    }
    var chosen: string;
    if drop.Some? && drop.value in current {
      chosen := drop.value;
    } else {
      chosen := MinByHeadroom(current, headroom);
      WeakestIsUnique(current, headroom, chosen, WeakestOf(current, headroom));
    }
    LayersWithout(current, chosen);
    remaining, dropped := current - {chosen}, Some(chosen);
  }

  method MinByHeadroom(current: Split, headroom: map<string, int>) returns (chosen: string)
    requires current != map[]
    ensures Weakest(current, headroom, chosen)
  {
    chosen :| chosen in current;
    var rest := current.Keys - {chosen};
    TextReflexive(chosen);
    while rest != {}
      invariant rest <= current.Keys && chosen in current
      invariant forall e :: e in current && e !in rest ==> Weaker(headroom, chosen, e)
      decreases |rest|
    {
      var d :| d in rest;
      rest := rest - {d};
      TextTotal(d, chosen);
      if !Weaker(headroom, chosen, d) {
        forall e | e in current && e !in rest ensures Weaker(headroom, d, e) {
          TextReflexive(d);
          if e != d {
            WeakerTransitive(headroom, d, chosen, e);
          }
        }
        chosen := d;
      }
    }
  }

  lemma WeakerTransitive(headroom: map<string, int>, a: string, b: string, c: string)
    requires Weaker(headroom, a, b) && Weaker(headroom, b, c)
    ensures Weaker(headroom, a, c)
  {
    if RoomOf(headroom, a) == RoomOf(headroom, b) == RoomOf(headroom, c) {
      TextTransitive(a, b, c);
    }
  }

  /** Which device goes is determined: no two devices are both the weakest. */
  lemma WeakestIsUnique(s: Split, headroom: map<string, int>, d: string, e: string)
    requires Weakest(s, headroom, d) && Weakest(s, headroom, e)
    ensures d == e
  {
    TextAntisymmetric(d, e);
  }
}
