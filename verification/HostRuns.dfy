/** What the layer-split host keeps over whole runs of starts, checks and stops. */
module HostRuns {
  import opened Options
  import opened Common
  import opened LayerPlan
  import opened ModelHost

  datatype Event = Boot(launch: Launch) | Look(check: Check) | Halt

  ghost function Next(cfg: Config, h: Host, e: Event): Host {
    match e
    case Boot(l) => Started(cfg, h, None, l)
    case Look(c) => Reconciled(cfg, h, c).host
    case Halt => Stopped(h)
  }

  const FRESH := Host(OFF, false, map[], None, 0, 0, 0, 0)

  ghost function After(cfg: Config, h: Host, run: seq<Event>): Host {
    if run == [] then h else Next(cfg, After(cfg, h, run[..|run| - 1]), run[|run| - 1])
  }

  // ---- one start and one check, over what they meet ----

  /** Which peers are planned for: those with a name that is not excluded, by their measured memory. */
  lemma {:induction false} OfferedIff(peers: seq<Node>, excluded: set<string>, n: Node)
    ensures n in Offered(peers, excluded) <==>
              exists p :: p in peers && p.id != "" && p.id !in excluded && n == p.(advertised := 0)
  {
    if peers != [] {
      var init, last := peers[..|peers| - 1], peers[|peers| - 1];
      OfferedIff(init, excluded, n);
      assert forall p :: p in peers <==> p in init || p == last;
    }
  }

  /** What is said of devices that were left out on purpose. */
  lemma LeftOutOverFields(cfg: Config, refused: map<string, int>, peers: seq<Node>, extra: set<string>, d: string)
    ensures var out, plan := cfg.excluded + extra, Planned(cfg, refused, peers, extra);
            var fleet := FleetPlan(cfg.model, peers, out);
            && (d in refused && d in fleet.assignments ==>
                  d !in plan.assignments && d in plan.skipped && plan.skipped[d] == HeldOut)
            && (d !in refused || d !in fleet.assignments ==>
                  (d in plan.skipped <==> d in fleet.skipped)
                  && (d in plan.skipped ==> plan.skipped[d] == fleet.skipped[d]))
            && ((exists p :: p in peers && p.id == d) && d in out && d != "" ==>
                  d in fleet.skipped && fleet.skipped[d] == Excluded)
            && plan.headroom == fleet.headroom
  {
    if p :| p in peers && p.id == d {
      assert d in Names(peers);
    }
  }

  lemma {:induction false} OfferedDistinct(peers: seq<Node>, excluded: set<string>)
    requires DistinctIds(peers)
    ensures DistinctIds(Offered(peers, excluded))
  {
    if peers != [] {
      var init, last := peers[..|peers| - 1], peers[|peers| - 1];
      OfferedDistinct(init, excluded);
      forall n | n in Offered(init, excluded) ensures n.id != last.id {
        OfferedIff(init, excluded, n);
      }
    }
  }

  /** Among peers with distinct names, a plan calls a device hot exactly when it is paired and
      reports a thermal status that refuses. */
  lemma HotIff(cfg: Config, refused: map<string, int>, peers: seq<Node>, extra: set<string>, p: Node)
    requires DistinctIds(peers) && p in peers && p.id != "" && p.id !in cfg.excluded + extra
    ensures var plan := Planned(cfg, refused, peers, extra);
            (p.id in plan.skipped && plan.skipped[p.id] == Hot) <==>
              !p.unpaired && p.thermal.Some? && p.thermal.value >= 3
  {
    hide SplitPlan, Assigned, Capacity, Offered, Headroom;
    var out := cfg.excluded + extra;
    var offered, n := Offered(peers, out), p.(advertised := 0);
    OfferedIff(peers, out, n);
    OfferedDistinct(peers, out);
    SurveyOverFields(cfg.model, offered, n);
    LeftOutOverFields(cfg, refused, peers, extra, p.id);
    FleetSkips(cfg.model, peers, out, p.id);
    if p.id in FleetPlan(cfg.model, peers, out).assignments {
      UsedAreCool(cfg.model, offered, n);
    }
  }

  lemma FleetSkips(m: Model, peers: seq<Node>, out: set<string>, d: string)
    requires d !in out
    ensures var plan := FleetPlan(m, peers, out);
            && plan.assignments == SplitPlan(m, Offered(peers, out)).assignments
            && (d in plan.skipped <==> d in Skipped(m, Offered(peers, out)))
            && (d in plan.skipped ==> plan.skipped[d] == Skipped(m, Offered(peers, out))[d])
  {
  }

  lemma UsedAreCool(m: Model, nodes: seq<Node>, n: Node)
    requires DistinctIds(nodes) && n in nodes && n.id in SplitPlan(m, nodes).assignments
    ensures !n.unpaired && (n.thermal.None? || n.thermal.value < 3)
  {
    hide SplitPlan, Capacity;
    PlanIsSafe(m, nodes);
    var o :| o in nodes && o.id == n.id && SplitPlan(m, nodes).assignments[n.id] <= Capacity(m, o);
    assert o == n;
    CapacityOverFields(m, n);
  }

  /** The host after a start: which devices serve, what it is called, and what was found to work. */
  lemma StartOverFields(cfg: Config, h: Host, given: Option<Split>, l: Launch)
    requires cfg.hasModel
    ensures var t, wanted := Started(cfg, h, given, l), WantedAtStart(cfg, h, given, l);
            var s, up := t.status, !l.portBusy && l.made && l.launched;
            && s.started == s.assignments
            && (forall d :: d in s.assignments <==> d in wanted && d in l.endpoints && d in l.answering)
            && (forall d :: d in s.assignments ==> s.assignments[d] == wanted[d])
            && s.remote == Layers(s.assignments) && s.local == cfg.model.total - s.remote
            && s.mode == (if s.remote == 0 then LocalOnly else if up && !l.healthy then Unhealthy else Offloaded)
            && (s.health <==> up && l.healthy) && (s.probe <==> up && l.healthy && l.probed)
            && (t.launcher <==> h.launcher || (!l.portBusy && l.made))
            && t == h.(status := s, launcher := t.launcher, refused := t.refused)
  {
    var wanted := WantedAtStart(cfg, h, given, l);
    hide WantedAtStart, PinsAtStart, PlanAtStart;
    OnlyIsExcept(wanted, l);
  }

  lemma NoModelNoStart(cfg: Config, h: Host, given: Option<Split>, l: Launch)
    requires !cfg.hasModel
    ensures Started(cfg, h, given, l)
            == h.(status := Status(Off, map[], map[], 0, 0, map[], false, false))
  {
  }

  /** A given split is taken as it is. Without one a start plans at once, and once more after the wait if it waits. */
  lemma WantedOverFields(cfg: Config, h: Host, split: Split, l: Launch)
    ensures WantedAtStart(cfg, h, Some(split), l) == split
    ensures var first := Planned(cfg, Unexpired(h.refused, l.plan.now), l.plan.peers, {}).assignments;
            WantedAtStart(cfg, h, None, l)
            == if cfg.settles && (l.known || l.plan.peers != []) && first == map[]
               then Planned(cfg, Unexpired(Unexpired(h.refused, l.plan.now), l.late.now), l.late.peers, {}).assignments
               else first
  {
  }

  ghost predicate ServesNow(h: Host, c: Check) {
    h.launcher && c.running && c.healthy && (h.status.probe || c.probed)
  }

  /** A check of a model that is not serving: it leaves a port that somebody else owns alone, gives
      up after the last allowed restart, and otherwise restarts the same split at first and then
      one without its weakest device. */
  lemma WatchdogOverFields(cfg: Config, h: Host, c: Check)
    ensures var o := Reconciled(cfg, h, c);
            if h.status.mode == Off || h.status.mode == Failed || (!(h.launcher && c.running) && c.portBusy)
            then o == Outcome(h, Hold)
            else if ServesNow(h, c) then o == Rebalanced(cfg, h.(failures := 0), c)
            else if h.failures >= cfg.maxRestarts
            then o == Outcome(h.(status := h.status.(mode := Failed)), GaveUp)
            else && o.action.Watchdog? && o.host == Relaunched(cfg, h, o.action.split, c.restartAt, c.launch)
                 && (h.failures == 0 || h.status.assignments == map[] ==> o.action.split == h.status.assignments)
                 && (h.failures != 0 && h.status.assignments != map[] ==>
                       exists d :: Weakest(h.status.assignments, h.status.headroom, d)
                                   && o.action.split == h.status.assignments - {d})
  {
    hide Relaunched, Rebalanced;
    if h.status.assignments != map[] {
      assert Weakest(h.status.assignments, h.status.headroom, WeakestOf(h.status.assignments, h.status.headroom));
    }
  }

  /** A check of a model that serves, for every answer of plan, counter, cooldown and new devices. */
  lemma RebalanceOverFields(cfg: Config, h: Host, c: Check)
    ensures var o, desired := Rebalanced(cfg, h, c), Desired(cfg, h, c);
            var count := if h.pending == Some(desired) then h.runs + 1 else 1;
            var silent := set d | d in desired && d !in h.status.assignments && !(d in c.endpoints && d in c.answering);
            if desired == h.status.assignments
            then o.action == Hold && o.host.pending == None && o.host.runs == 0 && o.host.status == h.status
            else if !c.force && (count < cfg.stableRuns || c.waitedAt - h.lastRestart < cfg.cooldown)
            then o.action == Deferred && o.host.pending == Some(desired) && o.host.runs == count
                 && o.host.status == h.status
            else if silent == {} then o.action == Rebalance(desired)
            else
              var pins := PinsAgain(cfg, Compared(cfg, h, c), silent, c);
              var again := Planned(cfg, pins, c.replan.peers, silent).assignments;
              if again == h.status.assignments
              then o.action == Hold && o.host.pending == None && o.host.runs == 0 && o.host.status == h.status
              else o.action == Rebalance(again)
  {
    hide Relaunched, Desired, PinsSeen, PinsAgain, Planned, Unexpired;
    var desired := Desired(cfg, h, c);
    var silent := set d | d in desired && d !in h.status.assignments && !(d in c.endpoints && d in c.answering);
    assert silent == Silent(Compared(cfg, h, c), desired, c);
  }

  /** And whatever is decided to run is relaunched as it is: a stamp, a count, and a failure
      unless it comes up. */
  lemma RelaunchOverFields(cfg: Config, h: Host, split: Split, at: int, l: Launch)
    ensures var t := Relaunched(cfg, h, split, at, l);
            && t.relaunches == h.relaunches + 1 && t.lastRestart == at
            && t.failures == (if t.status.health then 0 else h.failures + 1)
            && t.pending == h.pending && t.runs == h.runs
            && (forall d :: cfg.hasModel && d in t.status.assignments <==>
                  cfg.hasModel && d in split && d in l.endpoints && d in l.answering)
            && (t.launcher <==> cfg.hasModel && !l.portBusy && l.made)
  {
    hide PlanAtStart, PinsAtStart;
  }

  /** A stop forgets everything but the pins and the history of relaunches. */
  lemma StopOverFields(h: Host)
    ensures var t := Stopped(h);
            && t.refused == h.refused && t.relaunches == h.relaunches && t.lastRestart == h.lastRestart
            && t.status.mode == Off && t.status.assignments == map[] && !t.launcher
            && t.pending == None && t.runs == 0 && t.failures == 0
  {
  }

  // ---- every layer is somewhere ----

  /** Layers are conserved, the started devices are exactly the assigned ones, and no more
      leaves this host than the model's own minimum allows. */
  ghost predicate Conserved(cfg: Config, s: Status) {
    && s.started == s.assignments && s.remote == Layers(s.assignments) && Positive(s.assignments)
    && s.remote <= Budget(cfg.model)
    && (!s.mode.Off? ==> s.remote + s.local == cfg.model.total)
    && (s.mode.Off? ==> s.assignments == map[])
  }

  ghost predicate Placeable(cfg: Config, split: Split) {
    Positive(split) && Layers(split) <= Budget(cfg.model)
  }

  /** What a plan offers, pins and exclusions included. */
  lemma PlannedIsSafe(cfg: Config, refused: map<string, int>, peers: seq<Node>, extra: set<string>)
    requires cfg.model.total > 0
    ensures var plan := Planned(cfg, refused, peers, extra);
            && Placeable(cfg, plan.assignments) && plan.remote == Layers(plan.assignments)
            && plan.remote + plan.local == cfg.model.total
            && plan.assignments.Keys !! refused.Keys && plan.assignments.Keys !! cfg.excluded + extra
            && plan.assignments.Keys <= Names(peers)
  {
    var offered := Offered(peers, cfg.excluded + extra);
    var fleet := FleetPlan(cfg.model, peers, cfg.excluded + extra);
    PlanIsSafe(cfg.model, offered);
    PartHoldsLess(Except(fleet.assignments, refused.Keys), fleet.assignments);
    forall d | d in fleet.assignments ensures d !in cfg.excluded + extra && d in Names(peers) {
      var n :| n in offered && n.id == d;
      OfferedFromPeers(peers, cfg.excluded + extra, n);
    }
  }

  lemma {:induction false} OfferedFromPeers(peers: seq<Node>, excluded: set<string>, n: Node)
    requires n in Offered(peers, excluded)
    ensures n.id !in excluded && n.id in Names(peers)
  {
    var init := peers[..|peers| - 1];
    if n in Offered(init, excluded) {
      OfferedFromPeers(init, excluded, n);
    } else {
      assert peers[|peers| - 1].id == n.id;
    }
  }

  lemma StartConserves(cfg: Config, h: Host, given: Option<Split>, l: Launch)
    requires cfg.model.total > 0 && (given.Some? ==> Placeable(cfg, given.value))
    ensures Conserved(cfg, Started(cfg, h, given, l).status)
    ensures Started(cfg, h, given, l).status.assignments.Keys <= l.endpoints * l.answering
  {
    var wanted := WantedAtStart(cfg, h, given, l);
    if given.None? {
      PlannedIsSafe(cfg, PinsAtStart(cfg, h, given, l),
                    if Waits(cfg, h, given, l) then l.late.peers else l.plan.peers, {});
    }
    OnlyIsExcept(wanted, l);
    PartHoldsLess(Only(wanted, l.endpoints * l.answering), wanted);
  }

  lemma RelaunchConserves(cfg: Config, h: Host, split: Split, at: int, l: Launch)
    requires cfg.model.total > 0 && Placeable(cfg, split)
    ensures Conserved(cfg, Relaunched(cfg, h, split, at, l).status)
  {
    StartConserves(cfg, h.(launcher := false, relaunches := h.relaunches + 1, lastRestart := at), Some(split), l);
  }

  lemma NextTryPlaceable(cfg: Config, h: Host)
    requires Conserved(cfg, h.status)
    ensures Placeable(cfg, NextTry(h)) && PartOf(NextTry(h), h.status.assignments)
  {
    PartHoldsLess(NextTry(h), h.status.assignments);
  }

  lemma CheckConserves(cfg: Config, h: Host, c: Check)
    requires cfg.model.total > 0 && Conserved(cfg, h.status)
    ensures Conserved(cfg, Reconciled(cfg, h, c).host.status)
  {
    NextTryPlaceable(cfg, h);
    RelaunchConserves(cfg, h, NextTry(h), c.restartAt, c.launch);
    RebalanceConserves(cfg, h.(failures := 0), c);
  }

  lemma RebalanceConserves(cfg: Config, h: Host, c: Check)
    requires cfg.model.total > 0 && Conserved(cfg, h.status)
    ensures Conserved(cfg, Rebalanced(cfg, h, c).host.status)
  {
    var t := Compared(cfg, h, c);
    var desired, silent := Desired(cfg, h, c), Silent(t, Desired(cfg, h, c), c);
    var pins := PinsAgain(cfg, t, silent, c);
    PlannedIsSafe(cfg, Unexpired(h.refused, c.plan.now), c.plan.peers, {});
    PlannedIsSafe(cfg, pins, c.replan.peers, silent);
    RelaunchConserves(cfg, t, desired, c.restartAt, c.launch);
    RelaunchConserves(cfg, t.(refused := pins), Planned(cfg, pins, c.replan.peers, silent).assignments,
                      c.restartAt, c.launch);
  }

  /** In every reachable state the layers add up and the started devices are the assigned ones. */
  lemma {:induction false} ReachableConserves(cfg: Config, run: seq<Event>)
    requires cfg.model.total > 0
    ensures Conserved(cfg, After(cfg, FRESH, run).status)
  {
    if run == [] {
      assert Layers(map[]) == 0;
    } else {
      var h := After(cfg, FRESH, run[..|run| - 1]);
      ReachableConserves(cfg, run[..|run| - 1]);
      assert Layers(map[]) == 0;
      match run[|run| - 1]
      case Boot(l) => StartConserves(cfg, h, None, l);
      case Look(c) => CheckConserves(cfg, h, c);
      case Halt =>
    }
  }

  // ---- how often a healthy host may be reloaded ----

  // ---- who is held out, and until when ----

  /** A device shed for heat: it runs now, the plan wants it no more, and says that it is hot. */
  ghost function HeatPins(cfg: Config, h: Host, c: Check): map<string, int> {
    map d | d in h.status.assignments && d !in Desired(cfg, h, c)
            && d in PlanSeen(cfg, h, c).skipped && PlanSeen(cfg, h, c).skipped[d] == Hot
      :: c.hotAt + Max(0, cfg.thermalPin)
  }

  /** A device asked to start that has an address and does not answer. */
  function SilencePins(cfg: Config, split: Split, l: Launch): map<string, int> {
    map d | d in split && d in l.endpoints && d !in l.answering :: l.pinnedAt + Max(0, cfg.unreachablePin)
  }

  /** A new device that is asked before anything is stopped, and does not answer. */
  ghost function ProofPins(cfg: Config, h: Host, c: Check): map<string, int> {
    map d | d in Desired(cfg, h, c) && d !in h.status.assignments && !(d in c.endpoints && d in c.answering)
      :: c.pinnedAt + Max(0, cfg.unreachablePin)
  }

  /** The pins one event sets, the later ones over the earlier. */
  ghost function PinsOf(cfg: Config, h: Host, e: Event): map<string, int> {
    match e
    case Halt => map[]
    case Boot(l) => if cfg.hasModel then SilencePins(cfg, WantedAtStart(cfg, h, None, l), l) else map[]
    case Look(c) =>
      var a := ActionOf(cfg, h, e);
      (if Compares(h, e) && Desired(cfg, h, c) != h.status.assignments then HeatPins(cfg, h, c) else map[])
      + (if Compares(h, e) && Desired(cfg, h, c) != h.status.assignments && !a.Deferred?
         then ProofPins(cfg, h, c) else map[])
      + if a.Restarts() && cfg.hasModel then SilencePins(cfg, a.split, c.launch) else map[]
  }

  /** Until when each device was last pinned, over a whole run, whether that time has passed or not. */
  ghost function LastPins(cfg: Config, run: seq<Event>): map<string, int> {
    if run == [] then map[]
    else
      var init := run[..|run| - 1];
      LastPins(cfg, init) + PinsOf(cfg, After(cfg, FRESH, init), run[|run| - 1])
  }

  /** Every plan of an event was made by the time `now`. */
  predicate PlannedBy(e: Event, now: int) {
    match e
    case Halt => true
    case Boot(l) => l.plan.now <= now && l.late.now <= now
    case Look(c) => c.plan.now <= now && c.replan.now <= now && c.launch.plan.now <= now && c.launch.late.now <= now
  }

  /** Two records of pins say the same from `now` on. */
  ghost predicate Agree(a: map<string, int>, b: map<string, int>, now: int) {
    forall d :: (d in a && now < a[d] <==> d in b && now < b[d]) && (d in a && now < a[d] ==> a[d] == b[d])
  }

  lemma ExpiryAgrees(refused: map<string, int>, m: map<string, int>, at: int, now: int)
    requires Agree(refused, m, now) && at <= now
    ensures Agree(Unexpired(refused, at), m, now)
  {
  }

  lemma PinningAgrees(refused: map<string, int>, m: map<string, int>, pins: map<string, int>, now: int)
    requires Agree(refused, m, now)
    ensures Agree(refused + pins, m + pins, now)
  {
  }

  lemma StartPins(cfg: Config, h: Host, given: Option<Split>, l: Launch, m: map<string, int>, now: int)
    requires Agree(h.refused, m, now) && l.plan.now <= now && l.late.now <= now
    ensures var pins := if cfg.hasModel then SilencePins(cfg, WantedAtStart(cfg, h, given, l), l) else map[];
            Agree(Started(cfg, h, given, l).refused, m + pins, now)
  {
    hide Agree, Unexpired, WantedAtStart, StatusOf, PlanAtStart, Waits;
    if cfg.hasModel {
      ExpiryAgrees(h.refused, m, l.plan.now, now);
      ExpiryAgrees(Unexpired(h.refused, l.plan.now), m, l.late.now, now);
      var wanted := WantedAtStart(cfg, h, given, l);
      var pins := SilencePins(cfg, wanted, l);
      PinningAgrees(PinsAtStart(cfg, h, given, l), m, pins, now);
      assert Pin(PinsAtStart(cfg, h, given, l), Mute(wanted.Keys, l), l.pinnedAt + Max(0, cfg.unreachablePin))
             == PinsAtStart(cfg, h, given, l) + pins;
    } else {
      assert m + map[] == m;
    }
  }

  lemma RelaunchPins(cfg: Config, h: Host, split: Split, at: int, l: Launch, m: map<string, int>, now: int)
    requires Agree(h.refused, m, now) && l.plan.now <= now && l.late.now <= now
    ensures Agree(Relaunched(cfg, h, split, at, l).refused,
                  m + if cfg.hasModel then SilencePins(cfg, split, l) else map[], now)
  {
    hide Agree, Started, SilencePins;
    StartPins(cfg, h.(launcher := false, relaunches := h.relaunches + 1, lastRestart := at), Some(split), l, m, now);
  }

  lemma RebalancePins(cfg: Config, h: Host, c: Check, m: map<string, int>, now: int)
    requires Agree(h.refused, m, now) && PlannedBy(Look(c), now)
    ensures var o, changed := Rebalanced(cfg, h, c), Desired(cfg, h, c) != h.status.assignments;
            var heat := if changed then HeatPins(cfg, h, c) else map[];
            var proof := if changed && !o.action.Deferred? then ProofPins(cfg, h, c) else map[];
            var silence := if o.action.Restarts() && cfg.hasModel then SilencePins(cfg, o.action.split, c.launch)
                           else map[];
            Agree(o.host.refused, m + (heat + proof + silence), now)
  {
    hide Agree, Unexpired, Desired, HeatPins, ProofPins, SilencePins, Relaunched, PlanSeen, PinsSeen, PinsAgain;
    ExpiryAgrees(h.refused, m, c.plan.now, now);
    Unions(m, HeatPins(cfg, h, c), ProofPins(cfg, h, c),
           if Rebalanced(cfg, h, c).action.Restarts() && cfg.hasModel
           then SilencePins(cfg, Rebalanced(cfg, h, c).action.split, c.launch) else map[]);
    if Desired(cfg, h, c) != h.status.assignments {
      HeatIsPinned(cfg, h, c);
      var n := m + HeatPins(cfg, h, c);
      PinningAgrees(Unexpired(h.refused, c.plan.now), m, HeatPins(cfg, h, c), now);
      if !Rebalanced(cfg, h, c).action.Deferred? {
        ProvenPins(cfg, Compared(cfg, h, c), h, c, n, now);
      }
    }
  }

  lemma Unions(m: map<string, int>, a: map<string, int>, b: map<string, int>, c: map<string, int>)
    ensures m + a + b + c == m + (a + b + c) && m + a == m + (a + map[] + map[]) && m == m + (map[] + map[] + map[])
  {
  }

  lemma HeatIsPinned(cfg: Config, h: Host, c: Check)
    ensures PinsSeen(cfg, h, c) == Unexpired(h.refused, c.plan.now) + HeatPins(cfg, h, c)
  {
    hide Unexpired, Desired, PlanSeen;
  }

  lemma ProvenPins(cfg: Config, g: Host, h: Host, c: Check, m: map<string, int>, now: int)
    requires Agree(g.refused, m, now) && PlannedBy(Look(c), now) && g.status == h.status
    ensures var o := Proven(cfg, g, Desired(cfg, h, c), c);
            var silence := if o.action.Restarts() && cfg.hasModel then SilencePins(cfg, o.action.split, c.launch)
                           else map[];
            Agree(o.host.refused, m + ProofPins(cfg, h, c) + silence, now)
  {
    hide Agree, Unexpired, Desired, SilencePins, Relaunched, Planned;
    var desired, silent := Desired(cfg, h, c), Silent(g, Desired(cfg, h, c), c);
    var n := m + ProofPins(cfg, h, c);
    PinningAgrees(g.refused, m, ProofPins(cfg, h, c), now);
    assert n + map[] == n;
    assert ProofPins(cfg, h, c).Keys == silent;
    if silent == {} {
      assert ProofPins(cfg, h, c) == map[];
      assert n == m;
      RelaunchPins(cfg, g, desired, c.restartAt, c.launch, m, now);
    } else {
      assert Pin(g.refused, silent, c.pinnedAt + Max(0, cfg.unreachablePin)) == g.refused + ProofPins(cfg, h, c);
      var pins := PinsAgain(cfg, g, silent, c);
      ExpiryAgrees(g.refused + ProofPins(cfg, h, c), n, c.replan.now, now);
      RelaunchPins(cfg, g.(refused := pins), Planned(cfg, pins, c.replan.peers, silent).assignments,
                   c.restartAt, c.launch, n, now);
    }
  }

  lemma EventPins(cfg: Config, h: Host, e: Event, m: map<string, int>, now: int)
    requires Agree(h.refused, m, now) && PlannedBy(e, now)
    ensures Agree(Next(cfg, h, e).refused, m + PinsOf(cfg, h, e), now)
  {
    hide Agree, Desired, HeatPins, ProofPins, SilencePins, Relaunched, Started, Rebalanced, WantedAtStart, NextTry;
    match e
    case Halt => assert m + map[] == m;
    case Boot(l) => StartPins(cfg, h, None, l, m, now);
    case Look(c) =>
      if Compares(h, e) {
        var g := h.(failures := 0);
        SameComparison(cfg, h, g, c);
        RebalancePins(cfg, g, c, m, now);
      } else {
        WatchdogPins(cfg, h, c, m, now);
      }
  }

  lemma WatchdogPins(cfg: Config, h: Host, c: Check, m: map<string, int>, now: int)
    requires Agree(h.refused, m, now) && PlannedBy(Look(c), now) && !Compares(h, Look(c))
    ensures Agree(Reconciled(cfg, h, c).host.refused, m + PinsOf(cfg, h, Look(c)), now)
  {
    hide Agree, Desired, HeatPins, ProofPins, SilencePins, Relaunched, Rebalanced, NextTry;
    RelaunchPins(cfg, h, NextTry(h), c.restartAt, c.launch, m, now);
    Unions(m, map[], map[], if cfg.hasModel then SilencePins(cfg, NextTry(h), c.launch) else map[]);
    assert m + map[] == m;
    forall p: map<string, int> ensures map[] + map[] + p == p {
    }
  }

  lemma SameComparison(cfg: Config, h: Host, g: Host, c: Check)
    requires g == h.(failures := 0)
    ensures Desired(cfg, g, c) == Desired(cfg, h, c)
    ensures HeatPins(cfg, g, c) == HeatPins(cfg, h, c) && ProofPins(cfg, g, c) == ProofPins(cfg, h, c)
  {
  }

  /** From the last plan on, the pins a host remembers are the run's last pins that have not run out. */
  lemma {:induction false} PinsAreHistory(cfg: Config, run: seq<Event>, now: int)
    requires forall i :: 0 <= i < |run| ==> PlannedBy(run[i], now)
    ensures Agree(After(cfg, FRESH, run).refused, LastPins(cfg, run), now)
  {
    hide Agree, PlannedBy, Next, PinsOf;
    if run == [] {
      NobodyPinned(now);
    } else {
      PinsAreHistory(cfg, run[..|run| - 1], now);
      EventPins(cfg, After(cfg, FRESH, run[..|run| - 1]), run[|run| - 1], LastPins(cfg, run[..|run| - 1]), now);
    }
  }

  lemma NobodyPinned(now: int)
    ensures Agree(map[], map[], now)
  {
  }

  ghost predicate PinRuns(cfg: Config, run: seq<Event>, d: string, now: int) {
    d in LastPins(cfg, run) && now < LastPins(cfg, run)[d]
  }

  /** Whichever plan comes next, a device that the planner would use is left out of it exactly
      while its last pin runs. */
  lemma HeldOutIff(cfg: Config, run: seq<Event>, now: int, peers: seq<Node>, extra: set<string>, d: string)
    requires forall i :: 0 <= i < |run| ==> PlannedBy(run[i], now)
    ensures d in Planned(cfg, Unexpired(After(cfg, FRESH, run).refused, now), peers, extra).assignments
            <==> d in FleetPlan(cfg.model, peers, cfg.excluded + extra).assignments && !PinRuns(cfg, run, d, now)
  {
    hide After, LastPins, FleetPlan;
    PinsAreHistory(cfg, run, now);
  }

  /** So for what a check wants, and for what a start without a given split asks for at first. */
  lemma WantedIffNotHeldOut(cfg: Config, run: seq<Event>, c: Check, d: string)
    requires forall i :: 0 <= i < |run| ==> PlannedBy(run[i], c.plan.now)
    ensures d in Desired(cfg, After(cfg, FRESH, run), c)
            <==> d in FleetPlan(cfg.model, c.plan.peers, cfg.excluded).assignments
                 && !PinRuns(cfg, run, d, c.plan.now)
  {
    hide After, LastPins, FleetPlan;
    assert cfg.excluded + {} == cfg.excluded;
    HeldOutIff(cfg, run, c.plan.now, c.plan.peers, {}, d);
  }

  ghost function ActionOf(cfg: Config, h: Host, e: Event): Action {
    if e.Look? then Reconciled(cfg, h, e.check).action else Hold
  }

  /** What check number `i` of a run decided. */
  ghost function ActionAt(cfg: Config, run: seq<Event>, i: nat): Action
    requires i < |run|
  {
    ActionOf(cfg, After(cfg, FRESH, run[..i]), run[i])
  }

  /** The clock never runs backwards from one check to a later one. */
  ghost predicate Clocked(run: seq<Event>) {
    forall i, j {:trigger run[i], run[j]} :: 0 <= i < j < |run| && run[i].Look? && run[j].Look? ==>
      run[i].check.restartAt <= run[j].check.waitedAt <= run[j].check.restartAt
  }

  lemma LastRestartIs(cfg: Config, h: Host, e: Event)
    ensures Next(cfg, h, e).lastRestart == if ActionOf(cfg, h, e).Restarts() then e.check.restartAt else h.lastRestart
  {
    if e.Look? {
      CheckStamps(cfg, h, e.check);
    }
  }

  lemma CheckStamps(cfg: Config, h: Host, c: Check)
    ensures var o := Reconciled(cfg, h, c);
            o.host.lastRestart == if o.action.Restarts() then c.restartAt else h.lastRestart
  {
    hide Relaunched, Rebalanced, NextTry;
    RelaunchLeaves(cfg, h, NextTry(h), c.restartAt, c.launch);
    RebalanceStamps(cfg, h.(failures := 0), c);
  }

  lemma RebalanceStamps(cfg: Config, h: Host, c: Check)
    ensures var o := Rebalanced(cfg, h, c);
            && !o.action.Watchdog?
            && o.host.lastRestart == if o.action.Rebalance? then c.restartAt else h.lastRestart
  {
    hide Relaunched, Desired, RunsNow, PinsSeen, PinsAgain, Silent;
    var t, desired := Compared(cfg, h, c), Desired(cfg, h, c);
    var pins := PinsAgain(cfg, t, Silent(t, desired, c), c);
    RelaunchLeaves(cfg, t, desired, c.restartAt, c.launch);
    RelaunchLeaves(cfg, t.(refused := pins), Planned(cfg, pins, c.replan.peers, Silent(t, desired, c)).assignments,
                   c.restartAt, c.launch);
  }

  lemma {:induction false} RestartIsRemembered(cfg: Config, run: seq<Event>, i: nat)
    requires Clocked(run) && i < |run| && ActionAt(cfg, run, i).Restarts()
    ensures After(cfg, FRESH, run).lastRestart >= run[i].check.restartAt
  {
    var init := run[..|run| - 1];
    LastRestartIs(cfg, After(cfg, FRESH, init), run[|run| - 1]);
    if i < |run| - 1 {
      assert init[..i] == run[..i];
      assert forall k :: 0 <= k < |init| ==> init[k] == run[k];
      RestartIsRemembered(cfg, init, i);
    } else {
      assert run[..i] == init;
    }
  }

  /** A rebalance that nobody forced comes at least the cooldown after every earlier restart,
      whether that one was a rebalance or the watchdog's. */
  lemma RebalancesAreSpaced(cfg: Config, run: seq<Event>, i: nat, j: nat)
    requires Clocked(run) && i < j < |run|
    requires ActionAt(cfg, run, i).Restarts()
    requires ActionAt(cfg, run, j).Rebalance? && !run[j].check.force
    ensures run[j].check.restartAt - run[i].check.restartAt >= cfg.cooldown
  {
    assert run[..j][..i] == run[..i];
    assert forall k :: 0 <= k < j ==> run[..j][k] == run[k];
    RestartIsRemembered(cfg, run[..j], i);
    var h := After(cfg, FRESH, run[..j]);
    assert run[j].check.waitedAt - h.lastRestart >= cfg.cooldown;
    assert run[i].check.restartAt <= run[j].check.waitedAt <= run[j].check.restartAt;
  }

  // ---- only a change that has stayed ----

  /** A check that gets past the watchdog compares the plan with what runs. */
  predicate Compares(h: Host, e: Event) {
    e.Look? && !h.status.mode.Off? && !h.status.mode.Failed? && Serving(h, e.check)
  }

  /** What the comparisons of a run found, in order: the split wanted, or None for no change. */
  ghost function Found(cfg: Config, run: seq<Event>): seq<Option<Split>> {
    if run == [] then []
    else
      var h, e := After(cfg, FRESH, run[..|run| - 1]), run[|run| - 1];
      Found(cfg, run[..|run| - 1])
      + if !Compares(h, e) then []
        else if Desired(cfg, h, e.check) == h.status.assignments then [None]
        else [Some(Desired(cfg, h, e.check))]
  }

  ghost predicate Ends(s: seq<Option<Split>>, n: nat, x: Option<Split>) {
    n <= |s| && forall i :: |s| - n <= i < |s| ==> s[i] == x
  }

  /** The stability counter is a fact about history. */
  lemma {:induction false} CounterIsHistory(cfg: Config, run: seq<Event>)
    ensures var h := After(cfg, FRESH, run);
            Ends(Found(cfg, run), h.runs, h.pending) && (h.pending.None? ==> h.runs == 0)
  {
    if run != [] {
      var h, e := After(cfg, FRESH, run[..|run| - 1]), run[|run| - 1];
      CounterIsHistory(cfg, run[..|run| - 1]);
      CounterStep(cfg, h, e, Found(cfg, run[..|run| - 1]));
    }
  }

  lemma CounterStep(cfg: Config, h: Host, e: Event, found: seq<Option<Split>>)
    requires Ends(found, h.runs, h.pending) && (h.pending.None? ==> h.runs == 0)
    ensures var t := Next(cfg, h, e);
            var more := if !Compares(h, e) then found
                        else if Desired(cfg, h, e.check) == h.status.assignments then found + [None]
                        else found + [Some(Desired(cfg, h, e.check))];
            Ends(more, t.runs, t.pending) && (t.pending.None? ==> t.runs == 0)
  {
    if Compares(h, e) {
      var g := h.(failures := 0);
      assert Desired(cfg, g, e.check) == Desired(cfg, h, e.check);
      CountedInOutcome(cfg, g, e.check);
    }
  }

  lemma CountedInOutcome(cfg: Config, h: Host, c: Check)
    ensures var t := Rebalanced(cfg, h, c).host;
            if t.pending.None? then t.runs == 0
            else t.pending == Some(Desired(cfg, h, c)) && t.runs == RunsNow(cfg, h, c)
                 && Desired(cfg, h, c) != h.status.assignments
  {
    hide Relaunched, Desired, RunsNow, PinsSeen, PinsAgain, Silent;
    var t, desired := Compared(cfg, h, c), Desired(cfg, h, c);
    var pins := PinsAgain(cfg, t, Silent(t, desired, c), c);
    RelaunchLeaves(cfg, t, desired, c.restartAt, c.launch);
    RelaunchLeaves(cfg, t.(refused := pins), Planned(cfg, pins, c.replan.peers, Silent(t, desired, c)).assignments,
                   c.restartAt, c.launch);
  }

  /** What a relaunch does to the rebalance's bookkeeping: it stamps the time and counts itself. */
  lemma RelaunchLeaves(cfg: Config, h: Host, split: Split, at: int, l: Launch)
    ensures var t := Relaunched(cfg, h, split, at, l);
            && t.pending == h.pending && t.runs == h.runs && t.lastRestart == at && t.relaunches == h.relaunches + 1
            && (cfg.hasModel ==> Active(t) && t.status.assignments == Only(split, l.endpoints * l.answering))
            && t.failures == if ComesUp(l) && cfg.hasModel then 0 else h.failures + 1
  {
    hide PinsAtStart, PlanAtStart, Only, Except, Lost, Mute, Pin;
    OnlyIsExcept(split, l);
  }

  /** A rebalance that nobody forced comes only after the required number of successive
      comparisons, the last one its own, have wanted the same split, another than the running one. */
  lemma RebalancesAreStable(cfg: Config, run: seq<Event>)
    requires run != [] && cfg.stableRuns >= 1
    requires ActionAt(cfg, run, |run| - 1).Rebalance? && !run[|run| - 1].check.force
    ensures var h := After(cfg, FRESH, run[..|run| - 1]);
            var wanted := Desired(cfg, h, run[|run| - 1].check);
            Ends(Found(cfg, run), cfg.stableRuns, Some(wanted)) && wanted != h.status.assignments
  {
    var h, c := After(cfg, FRESH, run[..|run| - 1]), run[|run| - 1].check;
    CounterIsHistory(cfg, run[..|run| - 1]);
    var g := h.(failures := 0);
    assert Desired(cfg, g, c) == Desired(cfg, h, c) && RunsNow(cfg, g, c) >= cfg.stableRuns;
  }

  // ---- the watchdog terminates ----

  predicate Active(h: Host) {
    !h.status.mode.Off? && !h.status.mode.Failed?
  }

  predicate ComesUp(l: Launch) {
    !l.portBusy && l.made && l.launched && l.healthy
  }

  /** A check that finds the model not serving, on a port nobody else owns, and whose restart
      does not help. */
  predicate Dead(h: Host, c: Check) {
    !Serving(h, c) && (Alive(h, c) || !c.portBusy) && !ComesUp(c.launch)
  }

  ghost function Checked(cfg: Config, h: Host, checks: seq<Check>): Host {
    if checks == [] then h else Reconciled(cfg, Checked(cfg, h, checks[..|checks| - 1]), checks[|checks| - 1]).host
  }

  ghost predicate AllDead(cfg: Config, h: Host, checks: seq<Check>) {
    forall k {:trigger checks[k]} :: 0 <= k < |checks| ==> Dead(Checked(cfg, h, checks[..k]), checks[k])
  }

  lemma AllDeadPrefix(cfg: Config, h: Host, checks: seq<Check>, n: nat)
    requires AllDead(cfg, h, checks) && n <= |checks|
    ensures AllDead(cfg, h, checks[..n])
  {
    forall k | 0 <= k < n ensures Dead(Checked(cfg, h, checks[..n][..k]), checks[..n][k]) {
      assert checks[..n][..k] == checks[..k] && checks[..n][k] == checks[k];
    }
  }

  lemma DeadCheck(cfg: Config, h: Host, c: Check)
    requires cfg.hasModel && Dead(h, c)
    ensures var o := Reconciled(cfg, h, c);
            if !Active(h) then o == Outcome(h, Hold)
            else if h.failures >= cfg.maxRestarts
            then o.action == GaveUp && o.host == h.(status := h.status.(mode := Failed))
            else && o.action == Watchdog(NextTry(h)) && Active(o.host)
                 && o.host.relaunches == h.relaunches + 1 && o.host.failures == h.failures + 1
                 && o.host.status.assignments == Only(NextTry(h), c.launch.endpoints * c.launch.answering)
  {
    hide Relaunched, NextTry, Rebalanced;
    RelaunchLeaves(cfg, h, NextTry(h), c.restartAt, c.launch);
  }

  /** Where `n` checks that do not help have brought the host `h`. */
  ghost predicate BroughtTo(cfg: Config, h: Host, n: nat, t: Host)
    requires h.failures <= cfg.maxRestarts
  {
    var left := cfg.maxRestarts - h.failures;
    if n <= left
    then Active(t) && t.relaunches == h.relaunches + n && t.failures == h.failures + n
    else t.status.mode == Failed && t.relaunches == h.relaunches + left
  }

  lemma DeadCheckBrings(cfg: Config, h: Host, n: nat, g: Host, c: Check)
    requires cfg.hasModel && h.failures <= cfg.maxRestarts && BroughtTo(cfg, h, n, g) && Dead(g, c)
    ensures BroughtTo(cfg, h, n + 1, Reconciled(cfg, g, c).host)
  {
    DeadCheck(cfg, g, c);
  }

  /** While nothing helps, the checks relaunch exactly as often as is still allowed, then give up. */
  lemma {:induction false} WatchdogTerminates(cfg: Config, h: Host, checks: seq<Check>)
    requires cfg.hasModel && Active(h) && h.failures <= cfg.maxRestarts && AllDead(cfg, h, checks)
    ensures BroughtTo(cfg, h, |checks|, Checked(cfg, h, checks))
  {
    if checks != [] {
      var n := |checks| - 1;
      AllDeadPrefix(cfg, h, checks, n);
      WatchdogTerminates(cfg, h, checks[..n]);
      assert Dead(Checked(cfg, h, checks[..n]), checks[n]);
      DeadCheckBrings(cfg, h, n, Checked(cfg, h, checks[..n]), checks[n]);
    }
  }

  /** Giving up is final: whatever later checks find, nothing is relaunched or changed. */
  lemma {:induction false} GivingUpIsFinal(cfg: Config, h: Host, checks: seq<Check>)
    requires h.status.mode == Failed
    ensures Checked(cfg, h, checks) == h
  {
    if checks != [] {
      GivingUpIsFinal(cfg, h, checks[..|checks| - 1]);
    }
  }

  /** Every device asked at a restart answers. */
  ghost predicate NobodyDrops(h: Host, c: Check) {
    h.status.assignments.Keys <= c.launch.endpoints * c.launch.answering
  }

  ghost predicate NobodyEverDrops(cfg: Config, h: Host, checks: seq<Check>) {
    forall k {:trigger checks[k]} :: 0 <= k < |checks| ==> NobodyDrops(Checked(cfg, h, checks[..k]), checks[k])
  }

  lemma DegradedCounts(s: Split, headroom: map<string, int>)
    ensures |Degraded(s, headroom)| == if s == map[] then 0 else |s| - 1
    ensures PartOf(Degraded(s, headroom), s)
  {
    if s != map[] {
      assert s.Keys == (s - {WeakestOf(s, headroom)}).Keys + {WeakestOf(s, headroom)};
    }
  }

  lemma PrefixDropsNobody(cfg: Config, h: Host, checks: seq<Check>, n: nat)
    requires NobodyEverDrops(cfg, h, checks) && n <= |checks|
    ensures NobodyEverDrops(cfg, h, checks[..n])
  {
    forall k | 0 <= k < n ensures NobodyDrops(Checked(cfg, h, checks[..n][..k]), checks[..n][k]) {
      assert checks[..n][..k] == checks[..k] && checks[..n][k] == checks[k];
    }
  }

  /** One failed restart takes one device: none at the first, then the weakest. */
  lemma StepDown(cfg: Config, g: Host, c: Check)
    requires cfg.hasModel && Active(g) && g.failures < cfg.maxRestarts && Dead(g, c) && NobodyDrops(g, c)
    ensures var s := Reconciled(cfg, g, c).host.status.assignments;
            && s == NextTry(g) && PartOf(s, g.status.assignments)
            && |s| == if g.failures == 0 then |g.status.assignments| else Max(0, |g.status.assignments| - 1)
  {
    hide Reconciled, Degraded;
    DeadCheck(cfg, g, c);
    DegradedCounts(g.status.assignments, g.status.headroom);
    assert Only(NextTry(g), c.launch.endpoints * c.launch.answering) == NextTry(g);
  }

  /** While nothing helps and nobody drops out, the first restart keeps the split and each
      later one gives up one device. */
  lemma {:induction false} OneDeviceAtATime(cfg: Config, h: Host, checks: seq<Check>)
    requires cfg.hasModel && Active(h) && h.failures == 0 && |checks| <= cfg.maxRestarts
    requires AllDead(cfg, h, checks) && NobodyEverDrops(cfg, h, checks)
    ensures var s := Checked(cfg, h, checks).status.assignments;
            |s| == Max(0, |h.status.assignments| - Max(0, |checks| - 1)) && PartOf(s, h.status.assignments)
  {
    if checks != [] {
      var n := |checks| - 1;
      AllDeadPrefix(cfg, h, checks, n);
      PrefixDropsNobody(cfg, h, checks, n);
      OneDeviceAtATime(cfg, h, checks[..n]);
      WatchdogTerminates(cfg, h, checks[..n]);
      assert Dead(Checked(cfg, h, checks[..n]), checks[n]) && NobodyDrops(Checked(cfg, h, checks[..n]), checks[n]);
      StepDown(cfg, Checked(cfg, h, checks[..n]), checks[n]);
    }
  }

  /** So the host tries to run alone before it gives up iff it had few enough devices: fewer
      than the restarts allowed, or none at all. */
  lemma AllLocalBeforeGivingUpIff(cfg: Config, h: Host, checks: seq<Check>)
    requires cfg.hasModel && Active(h) && h.failures == 0 && |checks| == cfg.maxRestarts
    requires AllDead(cfg, h, checks) && NobodyEverDrops(cfg, h, checks)
    ensures (exists k :: 0 <= k <= |checks| && Checked(cfg, h, checks[..k]).status.assignments == map[])
            <==> |h.status.assignments| <= Max(0, cfg.maxRestarts - 1)
  {
    forall k | 0 <= k <= |checks|
      ensures |Checked(cfg, h, checks[..k]).status.assignments| == Max(0, |h.status.assignments| - Max(0, k - 1))
    {
      AllDeadPrefix(cfg, h, checks, k);
      PrefixDropsNobody(cfg, h, checks, k);
      OneDeviceAtATime(cfg, h, checks[..k]);
    }
    if |h.status.assignments| <= Max(0, cfg.maxRestarts - 1) {
      assert |Checked(cfg, h, checks[..|checks|]).status.assignments| == 0;
    }
  }
}
