/** The layer-split host: start, watchdog, rebalance, give up. Sockets, processes, clocks and
    peers answer through parameters. */
module ModelHost {
  import opened Options
  import opened Common
  import opened LayerPlan

  datatype Mode = Off | LocalOnly | Offloaded | Unhealthy | Failed

  datatype Status = Status(mode: Mode, assignments: Split, started: Split, remote: int, local: int,
                           headroom: map<string, int>, health: bool, probe: bool)

  /** `refused` holds, for each device held out of the plan, until when. */
  datatype Host = Host(status: Status, launcher: bool, refused: map<string, int>, pending: Option<Split>,
                       runs: nat, lastRestart: int, relaunches: nat, failures: nat)

  datatype Config = Config(hasModel: bool, model: Model, excluded: set<string>, settles: bool,
                           thermalPin: int, unreachablePin: int, cooldown: int, stableRuns: nat, maxRestarts: nat)

  /** One look at the fleet: the clock, and the peers the election considers live. */
  datatype Sight = Sight(now: int, peers: seq<Node>)

  /** What a start meets. `known` says that some peer is configured, `late` is the fleet after
      the settling wait, `made` and `launched` are the two ways a launch can fail. */
  datatype Launch = Launch(plan: Sight, known: bool, late: Sight, endpoints: set<string>, answering: set<string>,
                           pinnedAt: int, portBusy: bool, made: bool, launched: bool, healthy: bool, probed: bool)

  /** What a check meets: first the watchdog's questions, then the rebalance's. */
  datatype Check = Check(running: bool, portBusy: bool, healthy: bool, probed: bool, force: bool,
                         plan: Sight, hotAt: int, waitedAt: int, endpoints: set<string>, answering: set<string>,
                         pinnedAt: int, replan: Sight, restartAt: int, launch: Launch)

  datatype Action = Hold | Deferred | Watchdog(split: Split) | Rebalance(split: Split) | GaveUp {
    predicate Restarts() {
      Watchdog? || Rebalance?
    }
  }

  datatype Outcome = Outcome(host: Host, action: Action)

  const DEFAULT_LAYERS := 24

  const OFF := Status(Off, map[], map[], 0, 0, map[], false, false)

  function Only(s: Split, devices: set<string>): Split {
    map d | d in s && d in devices :: s[d]
  }

  function Except(s: Split, devices: set<string>): Split {
    map d | d in s && d !in devices :: s[d]
  }

  // ---- planning ----

  function Offered(peers: seq<Node>, excluded: set<string>): seq<Node> {
    if peers == [] then []
    else
      var p := peers[|peers| - 1];
      Offered(peers[..|peers| - 1], excluded)
      + if p.id == "" || p.id in excluded then [] else [p.(advertised := 0)]
  }

  function Names(peers: seq<Node>): set<string> {
    set p | p in peers :: p.id
  }

  ghost function FleetPlan(m: Model, peers: seq<Node>, excluded: set<string>): Plan {
    var plan := SplitPlan(m, Offered(peers, excluded));
    plan.(skipped := plan.skipped + map d | d in Names(peers) && d in excluded && d != "" :: Excluded)
  }

  /** The pins that have not run out. */
  function Unexpired(refused: map<string, int>, now: int): map<string, int> {
    map d | d in refused && refused[d] > now :: refused[d]
  }

  ghost function Pinned(plan: Plan, refused: map<string, int>, total: int): Plan {
    if refused == map[] then plan
    else
      var kept := Except(plan.assignments, refused.Keys);
      Plan(kept, Layers(kept), total - Layers(kept),
           plan.skipped + map d | d in plan.assignments && d in refused :: HeldOut, plan.headroom)
  }

  ghost function Planned(cfg: Config, refused: map<string, int>, peers: seq<Node>, extra: set<string>): Plan {
    Pinned(FleetPlan(cfg.model, peers, cfg.excluded + extra), refused, cfg.model.total)
  }

  function Pin(refused: map<string, int>, devices: set<string>, until: int): map<string, int> {
    refused + map d | d in devices :: until
  }

  // ---- start ----

  ghost predicate Waits(cfg: Config, h: Host, given: Option<Split>, l: Launch) {
    && given.None? && cfg.settles && (l.known || l.plan.peers != [])
    && Planned(cfg, Unexpired(h.refused, l.plan.now), l.plan.peers, {}).assignments == map[]
  }

  ghost function PinsAtStart(cfg: Config, h: Host, given: Option<Split>, l: Launch): map<string, int> {
    var pins := Unexpired(h.refused, l.plan.now);
    if Waits(cfg, h, given, l) then Unexpired(pins, l.late.now) else pins
  }

  ghost function PlanAtStart(cfg: Config, h: Host, given: Option<Split>, l: Launch): Plan {
    Planned(cfg, PinsAtStart(cfg, h, given, l), if Waits(cfg, h, given, l) then l.late.peers else l.plan.peers, {})
  }

  ghost function WantedAtStart(cfg: Config, h: Host, given: Option<Split>, l: Launch): Split {
    if given.Some? then given.value else PlanAtStart(cfg, h, given, l).assignments
  }

  ghost function StatusOf(cfg: Config, kept: Split, started: Split, headroom: map<string, int>, l: Launch): Status {
    var remote := Layers(kept);
    var up := !l.portBusy && l.made && l.launched;
    Status(if remote == 0 then LocalOnly else if up && !l.healthy then Unhealthy else Offloaded,
           kept, started, remote, cfg.model.total - remote, headroom, up && l.healthy, up && l.healthy && l.probed)
  }

  /** Which of the devices asked cannot be used, and which of those have an address. */
  function Lost(asked: set<string>, l: Launch): set<string> {
    asked - l.endpoints * l.answering
  }

  function Mute(asked: set<string>, l: Launch): set<string> {
    asked * l.endpoints - l.answering
  }

  lemma NobodyAsked(s: Split, l: Launch)
    ensures Except(s, Lost({}, l)) == s && Only(s, {} * (l.endpoints * l.answering)) == map[] && Mute({}, l) == {}
  {
  }

  lemma AllAsked(s: Split, l: Launch)
    ensures Only(s, s.Keys * (l.endpoints * l.answering)) == Only(s, l.endpoints * l.answering)
  {
  }

  /** The devices started are the ones still assigned when those that cannot be used are gone. */
  lemma OnlyIsExcept(s: Split, l: Launch)
    ensures Only(s, l.endpoints * l.answering) == Except(s, Lost(s.Keys, l))
  {
  }

  lemma AskedOne(s: Split, rest: set<string>, d: string, l: Launch)
    requires d in rest && rest <= s.Keys
    ensures var usable := l.endpoints * l.answering;
            && Except(s, Lost(s.Keys - (rest - {d}), l))
               == Except(s, Lost(s.Keys - rest, l)) - (if d in usable then {} else {d})
            && Only(s, (s.Keys - (rest - {d})) * usable)
               == (if d in usable then Only(s, (s.Keys - rest) * usable)[d := s[d]]
                   else Only(s, (s.Keys - rest) * usable))
    ensures Mute(s.Keys - (rest - {d}), l)
            == Mute(s.Keys - rest, l) + if d in l.endpoints && d !in l.answering then {d} else {}
  {
    assert s.Keys - (rest - {d}) == (s.Keys - rest) + {d};
  }

  ghost function Started(cfg: Config, h: Host, given: Option<Split>, l: Launch): Host {
    if !cfg.hasModel then h.(status := OFF)
    else
      var wanted := WantedAtStart(cfg, h, given, l);
      h.(status := StatusOf(cfg, Except(wanted, Lost(wanted.Keys, l)), Only(wanted, l.endpoints * l.answering),
                            PlanAtStart(cfg, h, given, l).headroom, l),
         launcher := h.launcher || (!l.portBusy && l.made),
         refused := Pin(PinsAtStart(cfg, h, given, l), Mute(wanted.Keys, l), l.pinnedAt + Max(0, cfg.unreachablePin)))
  }

  ghost function Relaunched(cfg: Config, h: Host, split: Split, at: int, l: Launch): Host {
    var t := Started(cfg, h.(launcher := false, relaunches := h.relaunches + 1, lastRestart := at), Some(split), l);
    t.(failures := if t.status.health then 0 else t.failures + 1)
  }

  function Stopped(h: Host): Host {
    h.(status := OFF, launcher := false, pending := None, runs := 0, failures := 0)
  }

  // ---- one check ----

  predicate Alive(h: Host, c: Check) {
    h.launcher && c.running
  }

  predicate Serving(h: Host, c: Check) {
    Alive(h, c) && c.healthy && (h.status.probe || c.probed)
  }

  ghost function NextTry(h: Host): Split {
    if h.failures == 0 then h.status.assignments else Degraded(h.status.assignments, h.status.headroom)
  }

  ghost function Reconciled(cfg: Config, h: Host, c: Check): Outcome {
    if h.status.mode.Off? || h.status.mode.Failed? then Outcome(h, Hold)
    else if !Alive(h, c) && c.portBusy then Outcome(h, Hold)
    else if Serving(h, c) then Rebalanced(cfg, h.(failures := 0), c)
    else if h.failures >= cfg.maxRestarts then Outcome(h.(status := h.status.(mode := Failed)), GaveUp)
    else Outcome(Relaunched(cfg, h, NextTry(h), c.restartAt, c.launch), Watchdog(NextTry(h)))
  }

  ghost function PlanSeen(cfg: Config, h: Host, c: Check): Plan {
    Planned(cfg, Unexpired(h.refused, c.plan.now), c.plan.peers, {})
  }

  ghost function Desired(cfg: Config, h: Host, c: Check): Split {
    PlanSeen(cfg, h, c).assignments
  }

  /** The devices the plan dropped for heat. */
  function HotAmong(detach: set<string>, plan: Plan): set<string> {
    set d | d in detach && d in plan.skipped && plan.skipped[d] == Hot
  }

  /** The same number of successive checks, this one included, have wanted this split. */
  ghost function RunsNow(cfg: Config, h: Host, c: Check): nat {
    if h.pending == Some(Desired(cfg, h, c)) then h.runs + 1 else 1
  }

  function ShedPins(cfg: Config, refused: map<string, int>, detach: set<string>, plan: Plan, at: int)
    : map<string, int>
  {
    Pin(refused, HotAmong(detach, plan), at + Max(0, cfg.thermalPin))
  }

  ghost function PinsSeen(cfg: Config, h: Host, c: Check): map<string, int> {
    ShedPins(cfg, Unexpired(h.refused, c.plan.now), h.status.assignments.Keys - Desired(cfg, h, c).Keys,
             PlanSeen(cfg, h, c), c.hotAt)
  }

  ghost function Compared(cfg: Config, h: Host, c: Check): Host {
    h.(refused := PinsSeen(cfg, h, c),
       pending := Some(Desired(cfg, h, c)), runs := RunsNow(cfg, h, c))
  }

  /** New devices that did not answer before anything running was stopped. */
  function Silent(h: Host, desired: Split, c: Check): set<string> {
    desired.Keys - h.status.assignments.Keys - c.endpoints * c.answering
  }

  /** A check that changes nothing but forgets what it was counting. */
  function Settled(h: Host, refused: map<string, int>): Host {
    h.(refused := refused, pending := None, runs := 0)
  }

  ghost function Rebalanced(cfg: Config, h: Host, c: Check): Outcome {
    var desired, t := Desired(cfg, h, c), Compared(cfg, h, c);
    if desired == h.status.assignments then Outcome(Settled(h, Unexpired(h.refused, c.plan.now)), Hold)
    else if !c.force && (t.runs < cfg.stableRuns || c.waitedAt - h.lastRestart < cfg.cooldown) then Outcome(t, Deferred)
    else Proven(cfg, t, desired, c)
  }

  /** The new split once its new devices have been asked; without the silent ones it is
      planned again. */
  ghost function Proven(cfg: Config, h: Host, desired: Split, c: Check): Outcome {
    if Silent(h, desired, c) == {}
    then Outcome(Relaunched(cfg, h, desired, c.restartAt, c.launch), Rebalance(desired))
    else Replanned(cfg, h, Silent(h, desired, c), c)
  }

  ghost function PinsAgain(cfg: Config, h: Host, silent: set<string>, c: Check): map<string, int> {
    Unexpired(Pin(h.refused, silent, c.pinnedAt + Max(0, cfg.unreachablePin)), c.replan.now)
  }

  ghost function Replanned(cfg: Config, h: Host, silent: set<string>, c: Check): Outcome {
    var pins := PinsAgain(cfg, h, silent, c);
    var again := Planned(cfg, pins, c.replan.peers, silent).assignments;
    if again == h.status.assignments then Outcome(Settled(h, pins), Hold)
    else Outcome(Relaunched(cfg, h.(refused := pins), again, c.restartAt, c.launch), Rebalance(again))
  }

  // ---- the host itself ----

  class MeshModelHost {
    const cfg: Config
    var status: Status
    var launcher: bool
    var refused: map<string, int>
    var pendingSig: Option<Split>
    var pendingRuns: nat
    var lastRestart: int
    var relaunches: nat
    var failures: nat

    ghost function View(): Host
      reads this
    {
      Host(status, launcher, refused, pendingSig, pendingRuns, lastRestart, relaunches, failures)
    }

    /** `stated` is the layer count the model file states, 0 when it states none. */
    constructor (hasModel: bool, given: int, stated: nat, model: Model, excluded: set<string>, settles: bool,
                 thermalPin: int, unreachablePin: int, cooldown: int, stableRuns: int, maxRestarts: int)
      ensures cfg.model.total > 0
      ensures cfg.model.total == if given > 0 then given else if stated != 0 then stated else 24
      ensures cfg.model == model.(total := cfg.model.total, keepLocal := Max(0, model.keepLocal))
      ensures cfg == Config(hasModel, cfg.model, excluded, settles, thermalPin, unreachablePin, cooldown,
                            Max(1, stableRuns), Max(0, maxRestarts))
      ensures View() == Host(OFF, false, map[], None, 0, 0, 0, 0)
    {
      var total := if given > 0 then given else if stated != 0 then stated else DEFAULT_LAYERS;
      cfg := Config(hasModel, model.(total := total, keepLocal := Max(0, model.keepLocal)), excluded, settles,
                    thermalPin, unreachablePin, cooldown, Max(1, stableRuns), Max(0, maxRestarts));
      status := OFF;
      launcher, refused, pendingSig, pendingRuns := false, map[], None, 0;
      lastRestart, relaunches, failures := 0, 0, 0;
    }

    method ApplyPins(plan: Plan, now: int) returns (held: Plan)
      modifies this`refused
      ensures refused == Unexpired(old(refused), now)
      ensures forall d :: d in refused <==> d in old(refused) && now < old(refused)[d]
      ensures forall d :: d in refused ==> refused[d] == old(refused)[d]
      ensures held == Pinned(plan, refused, cfg.model.total)
      ensures forall d :: d in held.assignments <==>
                d in plan.assignments && !(d in old(refused) && now < old(refused)[d])
    {
      refused := Unexpired(refused, now);
      if refused == map[] {
        return plan;
      }
      var kept := Except(plan.assignments, refused.Keys);
      var remote := SumLayers(kept);
      var heldOut := map d | d in plan.assignments && d in refused :: HeldOut;
      held := Plan(kept, remote, cfg.model.total - remote, plan.skipped + heldOut, plan.headroom);
    }

    method PlanForFleet(peers: seq<Node>, excluded: set<string>) returns (plan: Plan)
      ensures plan == FleetPlan(cfg.model, peers, excluded)
    {
      var nodes: seq<Node> := [];
      for i := 0 to |peers|
        invariant nodes == Offered(peers[..i], excluded)
      {
        assert peers[..i + 1][..i] == peers[..i];
        if peers[i].id != "" && peers[i].id !in excluded {
          nodes := nodes + [peers[i].(advertised := 0)];
        }
      }
      assert peers[..|peers|] == peers;
      plan := PlanLayerSplit(cfg.model, nodes);
      var named := map d | d in Names(peers) && d in excluded && d != "" :: Excluded;
      plan := plan.(skipped := plan.skipped + named);
    }

    method PlanNow(sight: Sight, extra: set<string>) returns (plan: Plan)
      modifies this`refused
      ensures refused == Unexpired(old(refused), sight.now)
      ensures plan == Planned(cfg, refused, sight.peers, extra)
    {
      plan := PlanForFleet(sight.peers, cfg.excluded + extra);
      plan := ApplyPins(plan, sight.now);
    }

    /** `given` is a split somebody has already decided on. */
    method Start(given: Option<Split>, l: Launch)
      modifies this`status, this`launcher, this`refused
      ensures View() == Started(cfg, old(View()), given, l)
    {
      hide Planned, Unexpired, Pin, StatusOf, Only, Except, Lost, Mute;
      if !cfg.hasModel {
        status := OFF;
        return;
      }
      var plan := PlanNow(l.plan, {});
      var wanted: Split;
      if given.None? {
        if cfg.settles && plan.assignments == map[] && (l.known || l.plan.peers != []) {
          plan := PlanNow(l.late, {});
        }
        wanted := plan.assignments;
      } else {
        wanted := given.value;
      }
      var assignments, started := WakePeripherals(wanted, l);
      LaunchAndVerify(assignments, started, plan.headroom, l);
    }

    /** Launches the model over the devices that answered, unless the port is taken. */
    method LaunchAndVerify(assignments: Split, started: Split, headroom: map<string, int>, l: Launch)
      modifies this`status, this`launcher
      ensures status == StatusOf(cfg, assignments, started, headroom, l)
      ensures launcher == (old(launcher) || (!l.portBusy && l.made))
    {
      var remote := SumLayers(assignments);
      status := Status(if remote != 0 then Offloaded else LocalOnly, assignments, started, remote,
                       cfg.model.total - remote, headroom, false, false);
      if l.portBusy {
        return;
      }
      launcher := launcher || l.made;
      if !l.made || !l.launched {
        return;
      }
      status := status.(health := l.healthy, probe := l.healthy && l.probed);
      if remote != 0 && !status.health {
        status := status.(mode := Unhealthy);
      }
    }

    /** Asks each assigned device to serve: those without an address or an answer leave the
        assignments, the silent ones are pinned, and the others are started. */
    method WakePeripherals(wanted: Split, l: Launch) returns (kept: Split, started: Split)
      modifies this`refused
      ensures kept == Except(wanted, Lost(wanted.Keys, l)) && started == Only(wanted, l.endpoints * l.answering)
      ensures refused == Pin(old(refused), Mute(wanted.Keys, l), l.pinnedAt + Max(0, cfg.unreachablePin))
    {
      var silent;
      kept, started, silent := AskAll(wanted, l);
      refused := Pin(refused, silent, l.pinnedAt + Max(0, cfg.unreachablePin));
    }

    method AskAll(wanted: Split, l: Launch) returns (kept: Split, started: Split, silent: set<string>)
      ensures kept == Except(wanted, Lost(wanted.Keys, l)) && started == Only(wanted, l.endpoints * l.answering)
      ensures silent == Mute(wanted.Keys, l)
    {
      hide Lost, Mute, Except, Only;
      var rest := wanted.Keys;
      kept, started, silent := wanted, map[], {};
      NobodyAsked(wanted, l);
      assert wanted.Keys - rest == {};
      while rest != {}
        invariant rest <= wanted.Keys
        invariant kept == Except(wanted, Lost(wanted.Keys - rest, l))
        invariant started == Only(wanted, (wanted.Keys - rest) * (l.endpoints * l.answering))
        invariant silent == Mute(wanted.Keys - rest, l)
        decreases |rest|
      {
        var device :| device in rest;
        AskedOne(wanted, rest, device, l);
        rest := rest - {device};
        if device !in l.endpoints {
          kept := kept - {device};
        } else if device in l.answering {
          started := started[device := wanted[device]];
        } else {
          kept, silent := kept - {device}, silent + {device};
        }
      }
      AllAsked(wanted, l);
      assert wanted.Keys - rest == wanted.Keys;
    }

    method Relaunch(split: Split, at: int, l: Launch)
      modifies this`status, this`launcher, this`refused, this`relaunches, this`lastRestart, this`failures
      ensures View() == Relaunched(cfg, old(View()), split, at, l)
    {
      hide Started;
      launcher := false;
      relaunches := relaunches + 1;
      lastRestart := at;
      Start(Some(split), l);
      failures := if status.health then 0 else failures + 1;
    }

    method Stop()
      modifies this`status, this`launcher, this`pendingSig, this`pendingRuns, this`failures
      ensures View() == Stopped(old(View()))
    {
      status, launcher, pendingSig, pendingRuns, failures := OFF, false, None, 0, 0;
    }

    method Reconcile(c: Check) returns (action: Action)
      modifies this
      ensures Outcome(View(), action) == Reconciled(cfg, old(View()), c)
    {
      hide Relaunched, Rebalanced, Degraded;
      if status.mode.Off? || status.mode.Failed? {
        return Hold;
      }
      var alive := launcher && c.running;
      if !alive && c.portBusy {
        return Hold;
      }
      var serving := alive && c.healthy;
      if serving && !status.probe {
        serving := c.probed;
      }
      if !serving {
        if failures >= cfg.maxRestarts {
          status := status.(mode := Failed);
          return GaveUp;
        }
        var split := status.assignments;
        if failures != 0 {
          var dropped;
          split, dropped := DegradeSplit(status.assignments, status.headroom, None);
        }
        Relaunch(split, c.restartAt, c.launch);
        return Watchdog(split);
      }
      failures := 0;
      action := RebalanceIfDue(c);
    }

    method RebalanceIfDue(c: Check) returns (action: Action)
      modifies this
      ensures Outcome(View(), action) == Rebalanced(cfg, old(View()), c)
    {
      hide Desired, Compared, Proven, Settled, Unexpired;
      var desired, changed := Compare(c);
      if !changed {
        return Hold;
      }
      if !c.force && (pendingRuns < cfg.stableRuns || c.waitedAt - lastRestart < cfg.cooldown) {
        return Deferred;
      }
      action := RestartProven(desired, c);
    }

    /** Plans again and counts how often the same change has been seen in a row. */
    method Compare(c: Check) returns (desired: Split, changed: bool)
      modifies this`refused, this`pendingSig, this`pendingRuns
      ensures desired == Desired(cfg, old(View()), c) && (changed <==> desired != status.assignments)
      ensures changed ==> View() == Compared(cfg, old(View()), c)
      ensures !changed ==> View() == Settled(old(View()), Unexpired(old(refused), c.plan.now))
    {
      hide Planned, Unexpired, ShedPins;
      var plan := PlanNow(c.plan, {});
      desired := plan.assignments;
      var diff := SplitDifference(status.assignments, desired);
      changed := diff.Changed();
      if !changed {
        pendingSig, pendingRuns := None, 0;
        return;
      }
      ghost var h := old(View());
      assert plan == PlanSeen(cfg, h, c);
      refused := ShedPins(cfg, refused, diff.detach, plan, c.hotAt);
      assert refused == PinsSeen(cfg, h, c);
      CountRun(desired);
    }

    method CountRun(desired: Split)
      modifies this`pendingSig, this`pendingRuns
      ensures pendingSig == Some(desired)
      ensures pendingRuns == if old(pendingSig) == Some(desired) then old(pendingRuns) + 1 else 1
    {
      pendingRuns := if pendingSig == Some(desired) then pendingRuns + 1 else 1;
      pendingSig := Some(desired);
    }

    /** Asks what is about to be added before stopping anything. */
    method RestartProven(wanted: Split, c: Check) returns (action: Action)
      modifies this
      ensures Outcome(View(), action) == Proven(cfg, old(View()), wanted, c)
    {
      hide Relaunched, Replanned;
      var silent := wanted.Keys - status.assignments.Keys - c.endpoints * c.answering;
      if silent == {} {
        Relaunch(wanted, c.restartAt, c.launch);
        return Rebalance(wanted);
      }
      action := ReplanWithout(silent, c);
    }

    method ReplanWithout(silent: set<string>, c: Check) returns (action: Action)
      modifies this
      ensures Outcome(View(), action) == Replanned(cfg, old(View()), silent, c)
    {
      hide Relaunched, Planned, Unexpired, Pin;
      refused := Pin(refused, silent, c.pinnedAt + Max(0, cfg.unreachablePin));
      var plan := PlanNow(c.replan, silent);
      if plan.assignments == status.assignments {
        pendingSig, pendingRuns := None, 0;
        return Hold;
      }
      Relaunch(plan.assignments, c.restartAt, c.launch);
      action := Rebalance(plan.assignments);
    }
  }
}
