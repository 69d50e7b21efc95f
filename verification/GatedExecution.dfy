/** The gated path: policy gate, hash-bound verdict, dispatch. */
module GatedExecution {
  import opened Options

  /** The JSON values a decision is made of. `Atom` is a number, a boolean or the like. */
  datatype Value = Null | Atom(n: int) | Text(s: string) | List(items: seq<Value>) | Dict(entries: map<string, Value>)

  type Decision = map<string, Value>

  /** `sha` is the canonical hash, `show` Python's `str`, `gated` the consent-gated action types,
      `handlers` the registered ones, and `allows` the operator's rules for the argument of a
      built-in type: the address and method of a call, the configured key of a news query, the
      statement of an update, the command of an actuator. */
  datatype Config = Config(sha: Decision -> string, show: Value -> string, gated: set<string>, handlers: set<string>,
                           allows: (string, Value, Value) -> bool)

  ghost predicate CollisionFree(cfg: Config) {
    forall a, b :: cfg.sha(a) == cfg.sha(b) ==> a == b
  }

  /** No value but a text prints like a consent-gated action type. */
  ghost predicate PrintsApart(cfg: Config) {
    forall v: Value :: !v.Text? ==> cfg.show(v) !in cfg.gated
  }

  /** What the collaborators answer when one decision is gated: the other invariants, the latched
      mode, the consent registry, the approval service; and whether the dispatch is within the
      task's budget. */
  datatype Answers = Answers(policy: bool, safeState: bool, granted: bool, approved: bool, charged: bool)

  datatype Verdict = Allowed | Blocked | Raised

  datatype Event =
    | Gate(decision: Decision, attention: Option<string>, answers: Answers, verdict: Verdict)
    | Call(handler: string, content: Decision)

  const ACTION := "action_type"
  const PARAMS := "params"
  const POLICY := "_policy"
  const TRACE := "_trace"
  const MULTI_STEP := "multi_step_process"

  function Get(d: Decision, key: string): Value {
    if key in d then d[key] else Null
  }

  predicate Truthy(v: Value) {
    match v
    case Null => false
    case Atom(n) => n != 0
    case Text(s) => s != ""
    case List(items) => items != []
    case Dict(entries) => entries != map[]
  }

  function Without(d: Decision, key: string): Decision {
    map k | k in d && k != key :: d[k]
  }

  // ---- the gate ----

  predicate Attentive(attention: Option<string>) {
    attention.None? || attention.value == "attending" || attention.value == "unknown"
  }

  /** The invariant that is checked before any action type is looked up. */
  predicate Manipulative(d: Decision) {
    || Truthy(Get(d, "manipulative"))
    || (Get(d, PARAMS).Dict? && Truthy(Get(Get(d, PARAMS).entries, "manipulative")))
  }

  /** Looking up an action type that cannot be hashed raises. */
  predicate Hashable(v: Value) {
    !v.List? && !v.Dict?
  }

  /** What the invariants take the action type to be. */
  function ActionForPolicy(d: Decision): Value {
    if Truthy(Get(d, "type")) then Get(d, "type") else Get(d, ACTION)
  }

  function GateVerdict(cfg: Config, d: Decision, attention: Option<string>, a: Answers): Verdict {
    var action := Get(d, ACTION);
    if Manipulative(d) then Blocked
    else if !Hashable(ActionForPolicy(d)) then Raised
    else if !a.policy then Blocked
    else if !Hashable(action) then Raised
    else if !action.Text? || action.s !in cfg.gated then Allowed
    else if a.safeState then Blocked
    else if !Attentive(attention) || !a.granted then Blocked
    else if !a.approved then Blocked
    else Allowed
  }

  // ---- the execution layer ----

  /** `params`, None when it cannot be searched. */
  function Arguments(d: Decision): Option<Decision> {
    var params := Get(d, PARAMS);
    if !Truthy(params) then Some(map[]) else if params.Dict? then Some(params.entries) else None
  }

  /** The first of two values that says something. */
  function Or(v: Value, w: Value): Value {
    if Truthy(v) then v else w
  }

  /** The argument of a built-in action type is there and passes its own check. */
  predicate Fits(cfg: Config, d: Decision, name: string) {
    && Arguments(d).Some?
    && var args := Arguments(d).value;
       if name == "api_call" then
         var url := Or(Get(args, "url"), Get(d, "api_endpoint"));
         Truthy(url) && cfg.allows(name, url, Or(Get(args, "method"), Text("GET")))
       else if name == "news_api" || name == "search_api" then
         var query := Or(Get(args, "query"), Get(d, "query"));
         Truthy(query) && cfg.allows(name, query, Null)
       else if name == "database_update" then
         var statement := Or(Get(args, "statement"), Get(d, "update_query"));
         Truthy(statement) && cfg.allows(name, statement, Null)
       else cfg.allows(name, Or(Get(args, "command"), Get(d, "command")), Null)
  }

  /** Which executor a decision reaches. */
  function Dispatch(cfg: Config, d: Decision): Option<string> {
    var action := Get(d, ACTION);
    if action == Text("api_call") || action == Text("news_api") || action == Text("search_api") then
      if Fits(cfg, d, action.s) then Some(action.s) else None
    else if action == Text("database_update") || action == Text("hardware_interaction") then
      if Fits(cfg, d, action.s) && action.s in cfg.handlers then Some(action.s) else None
    else if action == Text(MULTI_STEP) then None
    else if action == Text("record_observation") || action == Text("speak") || action == Text("ask_user") then
      if action.s in cfg.handlers then Some(action.s) else None
    else if !Truthy(action) then None
    else
      var name := if action.Text? then action.s else cfg.show(action);
      if name in cfg.handlers then Some(name) else None
  }

  /** Verifies the verdict bound to the content before anything is dispatched. */
  function Execute(cfg: Config, payload: Decision): Option<Event> {
    var verdict, clean := Get(payload, POLICY), Without(payload, POLICY);
    if !verdict.Dict? then None
    else if Get(verdict.entries, "verdict") != Text("allow") then None
    else if Get(verdict.entries, "decision_hash") != Text(cfg.sha(clean)) then None
    else
      match Dispatch(cfg, clean)
      case None => None
      case Some(handler) => Some(Call(handler, clean))
  }

  // ---- the engine ----

  /** `seqNo` numbers the decisions built from proposals and the executions; `log` is what was
      gated and what was called. */
  datatype Engine = Engine(seqNo: nat, log: seq<Event>)

  datatype Ending = Finished | Aborted

  datatype Done = Done(engine: Engine, ending: Ending)

  function Traced(d: Decision, seqNo: nat): Decision {
    var id := map["execution_id" := Atom(seqNo)];
    d[TRACE := Dict(if Get(d, "decision_id") == Null then id else id["decision_id" := Get(d, "decision_id")])]
  }

  function Sealed(cfg: Config, d: Decision, seqNo: nat): Decision {
    var payload := Traced(d, seqNo);
    payload[POLICY := Dict(map["verdict" := Text("allow"), "decision_hash" := Text(cfg.sha(payload))])]
  }

  function Executed(cfg: Config, e: Engine, d: Decision): Engine {
    var n := e.seqNo + 1;
    match Execute(cfg, Sealed(cfg, d, n))
    case None => Engine(n, e.log)
    case Some(call) => Engine(n, e.log + [call])
  }

  /** Gates one decision and, if it is allowed and paid for, executes it. */
  function Handled(cfg: Config, e: Engine, d: Decision, attention: Option<string>, a: Answers): Done {
    var verdict := GateVerdict(cfg, d, attention, a);
    var g := Engine(e.seqNo, e.log + [Gate(d, attention, a, verdict)]);
    if verdict.Raised? then Done(g, Aborted)
    else if verdict.Blocked? then Done(g, Finished)
    else if !a.charged then Done(g, Aborted)
    else Done(Executed(cfg, g, d), Finished)
  }

  function SubDecision(d: Decision, step: Decision, index: nat): Decision {
    map[ACTION := Get(step, ACTION),
        PARAMS := if Truthy(Get(step, PARAMS)) then Get(step, PARAMS) else Dict(map[]),
        "confidence" := if "confidence" in d then d["confidence"] else Atom(0),
        "model_outputs" := if "model_outputs" in d then d["model_outputs"] else Dict(map[]),
        "step_index" := Atom(index)]
  }

  /** The steps of a decision; None when reading them raises. Only a list can hold a step. */
  function StepsOf(d: Decision): Option<seq<Value>> {
    var params := Get(d, PARAMS);
    if !Truthy(params) then Some([])
    else if !params.Dict? then None
    else
      var steps := Get(params.entries, "steps");
      if !Truthy(steps) then Some([])
      else if steps.Atom? then None
      else Some(if steps.List? then steps.items else [Null])
  }

  /** The first `n` steps, each gated on its own and without the task's attention state. */
  function StepsRun(cfg: Config, e: Engine, d: Decision, steps: seq<Value>, n: nat, answers: int -> Answers): Done
    requires n <= |steps|
  {
    if n == 0 then Done(e, Finished)
    else
      var before, step := StepsRun(cfg, e, d, steps, n - 1, answers), steps[n - 1];
      if before.ending.Aborted? || !step.Dict? then before
      else Handled(cfg, before.engine, SubDecision(d, step.entries, n - 1), None, answers(n - 1))
  }

  /** `admitted`: the governor and the task-level policy let the task through to a decision.
      `proposed`: a model's proposal became the decision, which takes a number. */
  datatype Task = Task(admitted: bool, proposed: bool, decision: Decision, attention: Option<string>,
                       answers: int -> Answers)

  function Decided(e: Engine, t: Task): Engine {
    if t.admitted && t.proposed then e.(seqNo := e.seqNo + 1) else e
  }

  function TaskRun(cfg: Config, before: Engine, t: Task): Done {
    var e := Decided(before, t);
    if !t.admitted || !Truthy(Get(t.decision, ACTION)) then Done(e, Finished)
    else if Get(t.decision, ACTION) == Text(MULTI_STEP) then
      match StepsOf(t.decision)
      case None => Done(e, Aborted)
      case Some(steps) => StepsRun(cfg, e, t.decision, steps, |steps|, t.answers)
    else Handled(cfg, e, t.decision, t.attention, t.answers(0))
  }

  class DecisionEngine {
    const cfg: Config
    var decisionSeq: nat
    var log: seq<Event>

    ghost function View(): Engine
      reads this
    {
      Engine(decisionSeq, log)
    }

    constructor (cfg: Config)
      ensures this.cfg == cfg && View() == Engine(0, [])
    {
      this.cfg := cfg;
      decisionSeq, log := 0, [];
    }

    method GateDecision(d: Decision, attention: Option<string>, a: Answers) returns (verdict: Verdict)
      modifies this`log
      ensures verdict == GateVerdict(cfg, d, attention, a)
      ensures log == old(log) + [Gate(d, attention, a, verdict)]
    {
      verdict := Allowed;
      var action := Get(d, ACTION);
      if Manipulative(d) {
        verdict := Blocked;
      } else if !Hashable(ActionForPolicy(d)) {
        verdict := Raised;
      } else if !a.policy {
        verdict := Blocked;
      } else {
        if !Hashable(action) {
          verdict := Raised;
        } else if action.Text? && action.s in cfg.gated {
          if a.safeState || !Attentive(attention) || !a.granted || !a.approved {
            verdict := Blocked;
          }
        }
      }
      log := log + [Gate(d, attention, a, verdict)];
    }

    method ExecuteGated(d: Decision)
      modifies this
      ensures View() == Executed(cfg, old(View()), d)
    {
      hide Execute, Traced;
      decisionSeq := decisionSeq + 1;
      var payload := Traced(d, decisionSeq);
      var token := Dict(map["verdict" := Text("allow"), "decision_hash" := Text(cfg.sha(payload))]);
      var reached := Execute(cfg, payload[POLICY := token]);
      if reached.Some? {
        log := log + [reached.value];
      }
    }

    method Handle(d: Decision, attention: Option<string>, a: Answers) returns (ending: Ending)
      modifies this
      ensures Done(View(), ending) == Handled(cfg, old(View()), d, attention, a)
    {
      var verdict := GateDecision(d, attention, a);
      if verdict.Blocked? {
        return Finished;
      }
      if verdict.Raised? || !a.charged {
        return Aborted;
      }
      ExecuteGated(d);
      ending := Finished;
    }

    method ExecuteMultiStep(d: Decision, answers: int -> Answers) returns (ending: Ending)
      modifies this
      ensures match StepsOf(d)
              case None => View() == old(View()) && ending == Aborted
              case Some(steps) => Done(View(), ending) == StepsRun(cfg, old(View()), d, steps, |steps|, answers)
    {
      var steps := StepsOf(d);
      if steps.None? {
        return Aborted;
      }
      ending := Finished;
      for index := 0 to |steps.value|
        invariant Done(View(), ending) == StepsRun(cfg, old(View()), d, steps.value, index, answers)
      {
        if ending.Finished? && steps.value[index].Dict? {
          ending := Handle(SubDecision(d, steps.value[index].entries, index), None, answers(index));
        }
      }
    }

    method ExecuteTask(t: Task) returns (ending: Ending)
      modifies this
      ensures Done(View(), ending) == TaskRun(cfg, old(View()), t)
    {
      ending := Finished;
      if t.admitted && t.proposed {
        decisionSeq := decisionSeq + 1;
      }
      if !t.admitted || !Truthy(Get(t.decision, ACTION)) {
        return;
      }
      if Get(t.decision, ACTION) == Text(MULTI_STEP) {
        ending := ExecuteMultiStep(t.decision, t.answers);
      } else {
        ending := Handle(t.decision, t.attention, t.answers(0));
      }
    }
  }

  // ---- each answer, over what a decision holds ----

  /** What Python takes for false. */
  lemma TruthyIff(v: Value)
    ensures Truthy(v) <==> v != Null && v != Atom(0) && v != Text("") && v != List([]) && v != Dict(map[])
  {
  }

  /** What the invariants look up: the type if there is one, else the action type. */
  ghost predicate Unlookable(d: Decision) {
    var v := if Truthy(Get(d, "type")) then Get(d, "type") else Get(d, "action_type");
    v.List? || v.Dict?
  }

  ghost predicate SaysManipulative(d: Decision) {
    || ("manipulative" in d && Truthy(d["manipulative"]))
    || ("params" in d && d["params"].Dict? && "manipulative" in d["params"].entries
        && Truthy(d["params"].entries["manipulative"]))
  }

  /** When a decision is allowed, and when the gate raises; otherwise it is blocked. */
  lemma GateOverFields(cfg: Config, d: Decision, attention: Option<string>, a: Answers)
    ensures var action := if "action_type" in d then d["action_type"] else Null;
            && (GateVerdict(cfg, d, attention, a) == Allowed <==>
                  && !SaysManipulative(d) && !Unlookable(d) && a.policy && !action.List? && !action.Dict?
                  && (action.Text? && action.s in cfg.gated ==>
                        && !a.safeState && a.granted && a.approved
                        && (attention == None || attention == Some("attending") || attention == Some("unknown"))))
            && (GateVerdict(cfg, d, attention, a) == Raised <==>
                  !SaysManipulative(d) && (Unlookable(d) || (a.policy && (action.List? || action.Dict?))))
  {
  }

  /** What is executed at all: content whose verdict says allow and carries that content's hash. */
  lemma ExecuteOverFields(cfg: Config, payload: Decision)
    ensures var content := map k | k in payload && k != "_policy" :: payload[k];
            var bound :=
              && "_policy" in payload && payload["_policy"].Dict?
              && var token := payload["_policy"].entries;
                 && "verdict" in token && token["verdict"] == Text("allow")
                 && "decision_hash" in token && token["decision_hash"] == Text(cfg.sha(content));
            Execute(cfg, payload)
            == if bound && Dispatch(cfg, content).Some? then Some(Call(Dispatch(cfg, content).value, content)) else None
  {
    assert Without(payload, POLICY) == map k | k in payload && k != "_policy" :: payload[k];
  }

  /** The first of two keys that says something. */
  ghost function Either(args: Decision, key: string, d: Decision, other: string): Value {
    if key in args && Truthy(args[key]) then args[key] else if other in d then d[other] else Null
  }

  /** Which executor takes a decision, for every built-in type and for any other. */
  lemma DispatchOverFields(cfg: Config, d: Decision, args: Decision)
    requires if "params" in d && Truthy(d["params"]) then d["params"] == Dict(args) else args == map[]
    ensures var action := if "action_type" in d then d["action_type"] else Null;
            match action
            case Text("api_call") =>
              var url := Either(args, "url", d, "api_endpoint");
              var verb := if "method" in args && Truthy(args["method"]) then args["method"] else Text("GET");
              Dispatch(cfg, d) == if Truthy(url) && cfg.allows("api_call", url, verb) then Some("api_call") else None
            case Text("news_api") =>
              var query := Either(args, "query", d, "query");
              Dispatch(cfg, d)
              == if Truthy(query) && cfg.allows("news_api", query, Null) then Some("news_api") else None
            case Text("search_api") =>
              var query := Either(args, "query", d, "query");
              Dispatch(cfg, d)
              == if Truthy(query) && cfg.allows("search_api", query, Null) then Some("search_api") else None
            case Text("database_update") =>
              var statement := Either(args, "statement", d, "update_query");
              Dispatch(cfg, d)
              == if Truthy(statement) && cfg.allows("database_update", statement, Null)
                    && "database_update" in cfg.handlers
                 then Some("database_update") else None
            case Text("hardware_interaction") =>
              Dispatch(cfg, d)
              == if cfg.allows("hardware_interaction", Either(args, "command", d, "command"), Null)
                    && "hardware_interaction" in cfg.handlers
                 then Some("hardware_interaction") else None
            case Text("multi_step_process") => Dispatch(cfg, d) == None
            case Text(s) => Dispatch(cfg, d) == if s != "" && s in cfg.handlers then Some(s) else None
            case _ =>
              Dispatch(cfg, d)
              == if Truthy(action) && cfg.show(action) in cfg.handlers then Some(cfg.show(action)) else None
  {
  }

  /** Arguments that are no dictionary reach no built-in executor. */
  lemma NoArgumentsNoCall(cfg: Config, d: Decision)
    requires "params" in d && Truthy(d["params"]) && !d["params"].Dict?
    requires "action_type" in d
    requires d["action_type"] in {Text("api_call"), Text("news_api"), Text("search_api"),
                                  Text("database_update"), Text("hardware_interaction")}
    ensures Dispatch(cfg, d) == None
  {
  }

  /** The steps of a decision, and what each becomes. */
  lemma StepsOverFields(d: Decision)
    ensures var params := if "params" in d then d["params"] else Null;
            var steps := if params.Dict? && "steps" in params.entries then params.entries["steps"] else Null;
            && (Truthy(params) && !params.Dict? ==> StepsOf(d) == None)
            && (!Truthy(params) || params.Dict? ==>
                  if !Truthy(steps) then StepsOf(d) == Some([])
                  else if steps.List? then StepsOf(d) == Some(steps.items)
                  else if steps.Atom? then StepsOf(d) == None
                  else StepsOf(d).Some? && forall v :: v in StepsOf(d).value ==> !v.Dict?)
  {
  }

  lemma SubDecisionOverFields(d: Decision, step: Decision, index: nat)
    ensures var sub := SubDecision(d, step, index);
            && sub.Keys == {"action_type", "params", "confidence", "model_outputs", "step_index"}
            && sub["action_type"] == (if "action_type" in step then step["action_type"] else Null)
            && sub["params"] == (if "params" in step && Truthy(step["params"]) then step["params"] else Dict(map[]))
            && sub["confidence"] == (if "confidence" in d then d["confidence"] else Atom(0))
            && sub["model_outputs"] == (if "model_outputs" in d then d["model_outputs"] else Dict(map[]))
            && sub["step_index"] == Atom(index)
  {
  }

  /** The trace names the execution, and the decision when it has a name. */
  lemma TraceOverFields(d: Decision, seqNo: nat)
    ensures var t := Traced(d, seqNo);
            && t.Keys == d.Keys + {"_trace"} && (forall k :: k in d && k != "_trace" ==> t[k] == d[k])
            && t["_trace"].Dict?
            && var trace := t["_trace"].entries;
               && "execution_id" in trace && trace["execution_id"] == Atom(seqNo)
               && (if "decision_id" in d && d["decision_id"] != Null
                   then trace.Keys == {"execution_id", "decision_id"} && trace["decision_id"] == d["decision_id"]
                   else trace.Keys == {"execution_id"})
  {
  }

  // ---- what reaches a handler ----

  /** A decision's own verdict is hashed into its payload but left out of what is checked, so
      the verdict fits what is dispatched iff the decision brought none. */
  lemma VerdictMatchesIff(cfg: Config, d: Decision, seqNo: nat)
    requires CollisionFree(cfg)
    ensures var payload := Sealed(cfg, d, seqNo);
            cfg.sha(Without(payload, POLICY)) == payload[POLICY].entries["decision_hash"].s <==> POLICY !in d
    ensures POLICY in d ==> Execute(cfg, Sealed(cfg, d, seqNo)) == None
    ensures POLICY !in d ==> Without(Sealed(cfg, d, seqNo), POLICY) == Traced(d, seqNo)
  {
    var traced, clean := Traced(d, seqNo), Without(Sealed(cfg, d, seqNo), POLICY);
    if POLICY in d {
      assert POLICY in traced && POLICY !in clean;
    } else {
      assert clean == traced;
    }
  }

  /** The content that reaches a handler is the decision that was gated, plus its trace. */
  ghost predicate SameContent(gated: Decision, content: Decision) {
    Without(gated, TRACE) == Without(content, TRACE) && POLICY !in content
  }

  /** Everything that has to have happened before a call. */
  ghost predicate Cleared(cfg: Config, gate: Event, call: Event)
    requires gate.Gate? && call.Call?
  {
    && gate.verdict == Allowed && gate.answers.policy && gate.answers.charged
    && SameContent(gate.decision, call.content)
    && Get(call.content, ACTION) != Text(MULTI_STEP)
    && (Get(call.content, ACTION).Text? ==> call.handler == Get(call.content, ACTION).s)
    && (call.handler in cfg.gated ==>
          !gate.answers.safeState && gate.answers.granted && gate.answers.approved && Attentive(gate.attention))
  }

  /** Every call in a log directly follows the gate that let it through, so no gate lets through two. */
  ghost predicate OnlyCleared(cfg: Config, log: seq<Event>) {
    forall k {:trigger log[k]} :: 0 <= k < |log| && log[k].Call? ==>
      k > 0 && log[k - 1].Gate? && Cleared(cfg, log[k - 1], log[k])
  }

  lemma ExecutedIsCleared(cfg: Config, d: Decision, attention: Option<string>, a: Answers, seqNo: nat)
    requires CollisionFree(cfg) && PrintsApart(cfg) && GateVerdict(cfg, d, attention, a) == Allowed && a.charged
    ensures var r := Execute(cfg, Sealed(cfg, d, seqNo));
            r.Some? ==> r.value.Call? && Cleared(cfg, Gate(d, attention, a, Allowed), r.value)
  {
    hide Traced;
    VerdictMatchesIff(cfg, d, seqNo);
    TraceKeepsContent(d, seqNo);
  }

  lemma TraceKeepsContent(d: Decision, seqNo: nat)
    ensures Without(d, TRACE) == Without(Traced(d, seqNo), TRACE)
    ensures Get(Traced(d, seqNo), ACTION) == Get(d, ACTION) && (POLICY in Traced(d, seqNo) <==> POLICY in d)
  {
  }

  /** The trace is no argument of any action. */
  lemma TraceKeepsDispatch(cfg: Config, d: Decision, seqNo: nat)
    ensures Dispatch(cfg, Traced(d, seqNo)) == Dispatch(cfg, d)
  {
    var t := Traced(d, seqNo);
    assert forall key :: key != TRACE ==> Get(t, key) == Get(d, key);
    assert Arguments(t) == Arguments(d);
    forall name ensures Fits(cfg, t, name) == Fits(cfg, d, name) {
    }
  }

  lemma HandledStaysCleared(cfg: Config, e: Engine, d: Decision, attention: Option<string>, a: Answers)
    requires CollisionFree(cfg) && PrintsApart(cfg) && OnlyCleared(cfg, e.log)
    ensures OnlyCleared(cfg, Handled(cfg, e, d, attention, a).engine.log)
  {
    hide GateVerdict, Sealed, Execute, Cleared;
    var gate := Gate(d, attention, a, GateVerdict(cfg, d, attention, a));
    assert OnlyCleared(cfg, e.log + [gate]);
    if GateVerdict(cfg, d, attention, a) == Allowed && a.charged {
      ExecutedIsCleared(cfg, d, attention, a, e.seqNo + 1);
    }
  }

  lemma {:induction false} StepsStayCleared(cfg: Config, e: Engine, d: Decision, steps: seq<Value>, n: nat,
                                            answers: int -> Answers)
    requires CollisionFree(cfg) && PrintsApart(cfg) && OnlyCleared(cfg, e.log) && n <= |steps|
    ensures OnlyCleared(cfg, StepsRun(cfg, e, d, steps, n, answers).engine.log)
  {
    hide Handled, OnlyCleared, SubDecision;
    if n > 0 {
      StepsStayCleared(cfg, e, d, steps, n - 1, answers);
      if steps[n - 1].Dict? {
        HandledStaysCleared(cfg, StepsRun(cfg, e, d, steps, n - 1, answers).engine,
                            SubDecision(d, steps[n - 1].entries, n - 1), None, answers(n - 1));
      }
    }
  }

  function RunsAll(cfg: Config, tasks: seq<Task>): Engine {
    if tasks == [] then Engine(0, [])
    else TaskRun(cfg, RunsAll(cfg, tasks[..|tasks| - 1]), tasks[|tasks| - 1]).engine
  }

  /** Over every run of tasks, each call reaching a handler was let through by its own gate,
      with the same content; a consent-gated type had its grant, its approval and no safe state;
      and no multi-step decision reached a handler. */
  lemma {:induction false} DispatchEqualsGate(cfg: Config, tasks: seq<Task>)
    requires CollisionFree(cfg) && PrintsApart(cfg)
    ensures OnlyCleared(cfg, RunsAll(cfg, tasks).log)
  {
    if tasks != [] {
      var t := tasks[|tasks| - 1];
      var e := Decided(RunsAll(cfg, tasks[..|tasks| - 1]), t);
      DispatchEqualsGate(cfg, tasks[..|tasks| - 1]);
      HandledStaysCleared(cfg, e, t.decision, t.attention, t.answers(0));
      if StepsOf(t.decision).Some? {
        StepsStayCleared(cfg, e, t.decision, StepsOf(t.decision).value, |StepsOf(t.decision).value|, t.answers);
      }
    }
  }

  // ---- numbers ----

  /** A task that is not admitted, or whose decision names no action, is never gated; a proposal
      that became a decision takes a number all the same. */
  lemma TaskOverFields(cfg: Config, e: Engine, t: Task)
    ensures var action := if "action_type" in t.decision then t.decision["action_type"] else Null;
            var f := Engine(e.seqNo + if t.admitted && t.proposed then 1 else 0, e.log);
            TaskRun(cfg, e, t)
            == if !t.admitted || !Truthy(action) then Done(f, Finished)
               else if action != Text("multi_step_process") then Handled(cfg, f, t.decision, t.attention, t.answers(0))
               else if StepsOf(t.decision).None? then Done(f, Aborted)
               else StepsRun(cfg, f, t.decision, StepsOf(t.decision).value, |StepsOf(t.decision).value|, t.answers)
  {
  }

  /** One decision that was gated: blocked, raised, out of budget, or executed under the next number. */
  lemma HandledOverFields(cfg: Config, e: Engine, d: Decision, attention: Option<string>, a: Answers)
    ensures var verdict := GateVerdict(cfg, d, attention, a);
            var log := e.log + [Gate(d, attention, a, verdict)];
            var r := Execute(cfg, Sealed(cfg, d, e.seqNo + 1));
            Handled(cfg, e, d, attention, a)
            == match verdict
               case Raised => Done(Engine(e.seqNo, log), Aborted)
               case Blocked => Done(Engine(e.seqNo, log), Finished)
               case Allowed =>
                 if !a.charged then Done(Engine(e.seqNo, log), Aborted)
                 else Done(Engine(e.seqNo + 1, if r.Some? then log + [r.value] else log), Finished)
  {
    hide GateVerdict, Execute, Sealed;
  }

  /** The number a call carries in its trace. */
  function NumberOf(call: Event): int
    requires call.Call?
  {
    var trace := Get(call.content, "_trace");
    if trace.Dict? && Get(trace.entries, "execution_id").Atom? then Get(trace.entries, "execution_id").n else 0
  }

  /** Calls are numbered upwards, none above the engine's own counter. */
  ghost predicate Numbered(e: Engine) {
    && (forall k {:trigger e.log[k]} :: 0 <= k < |e.log| && e.log[k].Call? ==> 0 < NumberOf(e.log[k]) <= e.seqNo)
    && forall k, l {:trigger e.log[k], e.log[l]} :: 0 <= k < l < |e.log| && e.log[k].Call? && e.log[l].Call? ==>
         NumberOf(e.log[k]) < NumberOf(e.log[l])
  }

  lemma HandledIsNumbered(cfg: Config, e: Engine, d: Decision, attention: Option<string>, a: Answers)
    requires Numbered(e)
    ensures Numbered(Handled(cfg, e, d, attention, a).engine)
  {
    hide GateVerdict, Execute, Sealed, NumberOf;
    var g := Gate(d, attention, a, GateVerdict(cfg, d, attention, a));
    assert Numbered(Engine(e.seqNo, e.log + [g]));
    ExecutedHasNumber(cfg, d, e.seqNo + 1);
  }

  lemma ExecutedHasNumber(cfg: Config, d: Decision, seqNo: nat)
    ensures var r := Execute(cfg, Sealed(cfg, d, seqNo));
            r.Some? ==> r.value.Call? && NumberOf(r.value) == seqNo
  {
    hide Dispatch;
    TraceOverFields(d, seqNo);
  }

  lemma {:induction false} StepsAreNumbered(cfg: Config, e: Engine, d: Decision, steps: seq<Value>, n: nat,
                                            answers: int -> Answers)
    requires Numbered(e) && n <= |steps|
    ensures Numbered(StepsRun(cfg, e, d, steps, n, answers).engine)
  {
    hide Handled, Numbered, SubDecision;
    if n > 0 {
      StepsAreNumbered(cfg, e, d, steps, n - 1, answers);
      if steps[n - 1].Dict? {
        HandledIsNumbered(cfg, StepsRun(cfg, e, d, steps, n - 1, answers).engine,
                          SubDecision(d, steps[n - 1].entries, n - 1), None, answers(n - 1));
      }
    }
  }

  /** Over every run of tasks no two calls carry the same number, and later ones carry higher ones. */
  lemma {:induction false} CallsAreNumbered(cfg: Config, tasks: seq<Task>)
    ensures Numbered(RunsAll(cfg, tasks))
  {
    hide Handled, StepsRun;
    if tasks != [] {
      var t := tasks[|tasks| - 1];
      var e := Decided(RunsAll(cfg, tasks[..|tasks| - 1]), t);
      CallsAreNumbered(cfg, tasks[..|tasks| - 1]);
      HandledIsNumbered(cfg, e, t.decision, t.attention, t.answers(0));
      if StepsOf(t.decision).Some? {
        StepsAreNumbered(cfg, e, t.decision, StepsOf(t.decision).value, |StepsOf(t.decision).value|, t.answers);
      }
    }
  }

  // ---- attention ----

  /** A decision gated on its own reaches a consent-gated handler only if the task's attention
      state allows it. */
  lemma DirectCallIsAttended(cfg: Config, e: Engine, t: Task)
    requires PrintsApart(cfg) && CollisionFree(cfg) && Get(t.decision, ACTION) != Text(MULTI_STEP)
    ensures var log := TaskRun(cfg, e, t).engine.log;
            |log| > |e.log| && log[|log| - 1].Call? && log[|log| - 1].handler in cfg.gated ==> Attentive(t.attention)
  {
    hide GateVerdict, Sealed, Execute;
    var a := t.answers(0);
    if GateVerdict(cfg, t.decision, t.attention, a) == Allowed && a.charged {
      ExecutedIsCleared(cfg, t.decision, t.attention, a, Decided(e, t).seqNo + 1);
    }
  }

  const ALL_GRANTED := Answers(true, false, true, true, true)

  /** A consent-gated action that some executor takes. */
  predicate GatedAction(cfg: Config, d: Decision) {
    && Get(d, ACTION).Text? && Get(d, ACTION).s in cfg.gated && Dispatch(cfg, d).Some?
  }

  predicate RaisesAtGate(d: Decision) {
    !Manipulative(d) && !Hashable(ActionForPolicy(d))
  }

  /** Step `i` reaches such an action: nothing forbids it outright, and no step before it raises. */
  ghost predicate EscapesAt(cfg: Config, d: Decision, steps: seq<Value>, i: int) {
    && 0 <= i < |steps| && steps[i].Dict?
    && GatedAction(cfg, SubDecision(d, steps[i].entries, i)) && !Manipulative(SubDecision(d, steps[i].entries, i))
    && forall j :: 0 <= j < i && steps[j].Dict? ==> !RaisesAtGate(SubDecision(d, steps[j].entries, j))
  }

  ghost predicate Escapes(cfg: Config, d: Decision) {
    && Get(d, ACTION) == Text(MULTI_STEP) && StepsOf(d).Some?
    && exists i :: EscapesAt(cfg, d, StepsOf(d).value, i)
  }

  /** Every consent-gated call from position `n` of a log on was made under this attention state. */
  ghost predicate Attended(cfg: Config, log: seq<Event>, n: nat, attention: Option<string>) {
    Attentive(attention) || NoGatedCall(cfg, log, n)
  }

  ghost predicate NoGatedCall(cfg: Config, log: seq<Event>, n: nat) {
    forall k :: n <= k < |log| && log[k].Call? ==> log[k].handler !in cfg.gated
  }

  /** Whatever the attention state and whatever the collaborators answer. */
  ghost predicate AlwaysAttended(cfg: Config, e: Engine, d: Decision) {
    forall proposed, attention, answers {:trigger Task(true, proposed, d, attention, answers)} ::
      Attended(cfg, TaskRun(cfg, e, Task(true, proposed, d, attention, answers)).engine.log, |e.log|, attention)
  }

  /** The attention state guards every consent-gated call of a decision exactly when the decision
      is not a multi-step one with a step that reaches a consent-gated action. */
  lemma AttentionHoldsIff(cfg: Config, e: Engine, d: Decision)
    requires CollisionFree(cfg) && PrintsApart(cfg)
    ensures AlwaysAttended(cfg, e, d) <==> !Escapes(cfg, d)
  {
    hide TaskRun, Escapes, Attended;
    if Escapes(cfg, d) {
      var answers := EscapingRun(cfg, e, d);
      var t := Task(true, true, d, Some("absent"), answers);
      assert !Attended(cfg, TaskRun(cfg, e, t).engine.log, |e.log|, Some("absent"));
    } else {
      forall proposed, attention, answers
        ensures var t := Task(true, proposed, d, attention, answers);
                Attended(cfg, TaskRun(cfg, e, t).engine.log, |e.log|, attention)
      {
        OtherwiseAttended(cfg, e, Task(true, proposed, d, attention, answers));
      }
    }
  }

  lemma OtherwiseAttended(cfg: Config, e: Engine, t: Task)
    requires CollisionFree(cfg) && PrintsApart(cfg) && !Escapes(cfg, t.decision)
    ensures Attended(cfg, TaskRun(cfg, e, t).engine.log, |e.log|, t.attention)
  {
    hide Handled, StepsRun, EscapesAt;
    if Get(t.decision, ACTION) != Text(MULTI_STEP) {
      HandledIsAttended(cfg, Decided(e, t), t.decision, t.attention, t.answers(0));
    } else if StepsOf(t.decision).Some? {
      var steps := StepsOf(t.decision).value;
      assert forall i :: !EscapesAt(cfg, t.decision, steps, i);
      StepsMakeNoGatedCall(cfg, Decided(e, t), t.decision, steps, |steps|, t.answers);
    }
  }

  /** One gated decision adds its gate and at most one call, and a consent-gated call only of a
      gated action that is not forbidden, under an allowing attention state. */
  lemma HandledIsAttended(cfg: Config, e: Engine, d: Decision, attention: Option<string>, a: Answers)
    requires CollisionFree(cfg) && PrintsApart(cfg)
    ensures var r := Handled(cfg, e, d, attention, a);
            && e.log <= r.engine.log && Attended(cfg, r.engine.log, |e.log|, attention)
            && (!NoGatedCall(cfg, r.engine.log, |e.log|) ==> GatedAction(cfg, d) && !Manipulative(d))
            && (RaisesAtGate(d) ==> r.ending == Aborted)
  {
    hide Execute, Sealed, Cleared, Dispatch;
    if GateVerdict(cfg, d, attention, a) == Allowed && a.charged {
      ExecutedIsCleared(cfg, d, attention, a, e.seqNo + 1);
      ExecutedIsGated(cfg, d, attention, a, e.seqNo + 1);
    }
  }

  lemma ExecutedIsGated(cfg: Config, d: Decision, attention: Option<string>, a: Answers, seqNo: nat)
    requires CollisionFree(cfg) && PrintsApart(cfg) && GateVerdict(cfg, d, attention, a) == Allowed && a.charged
    ensures var r := Execute(cfg, Sealed(cfg, d, seqNo));
            r.Some? && r.value.Call? && r.value.handler in cfg.gated ==> GatedAction(cfg, d) && Attentive(attention)
  {
    hide Traced, Fits;
    VerdictMatchesIff(cfg, d, seqNo);
    TraceKeepsContent(d, seqNo);
    TraceKeepsDispatch(cfg, d, seqNo);
  }

  lemma {:induction false} StepsMakeNoGatedCall(cfg: Config, e: Engine, d: Decision, steps: seq<Value>, n: nat,
                                                answers: int -> Answers)
    requires CollisionFree(cfg) && PrintsApart(cfg) && n <= |steps|
    requires forall i :: !EscapesAt(cfg, d, steps, i)
    ensures var r := StepsRun(cfg, e, d, steps, n, answers);
            && e.log <= r.engine.log && NoGatedCall(cfg, r.engine.log, |e.log|)
            && (r.ending.Finished? ==>
                  forall j :: 0 <= j < n && steps[j].Dict? ==> !RaisesAtGate(SubDecision(d, steps[j].entries, j)))
  {
    hide Handled, GatedAction, RaisesAtGate, Manipulative, SubDecision;
    if n > 0 {
      StepsMakeNoGatedCall(cfg, e, d, steps, n - 1, answers);
      var before, step := StepsRun(cfg, e, d, steps, n - 1, answers), steps[n - 1];
      if before.ending.Finished? && step.Dict? {
        var sub := SubDecision(d, step.entries, n - 1);
        HandledIsAttended(cfg, before.engine, sub, None, answers(n - 1));
        assert !EscapesAt(cfg, d, steps, n - 1);
      }
    }
  }

  /** The answers that show it are the ordinary ones: everything is granted. */
  lemma EscapingRun(cfg: Config, e: Engine, d: Decision) returns (answers: int -> Answers)
    requires Escapes(cfg, d)
    ensures var t := Task(true, true, d, Some("absent"), answers);
            !Attended(cfg, TaskRun(cfg, e, t).engine.log, |e.log|, Some("absent"))
  {
    hide Handled, StepsRun, EscapesAt;
    var steps := StepsOf(d).value;
    var i :| EscapesAt(cfg, d, steps, i);
    answers := (k: int) => ALL_GRANTED;
    EscapeIsInRange(cfg, d, steps, i);
    var f := e.(seqNo := e.seqNo + 1);
    StepsReach(cfg, f, d, steps, i, i, answers);
    StepIsCalled(cfg, f, d, steps, i, answers);
    CallsStay(cfg, f, d, steps, i + 1, |steps|, answers);
  }

  lemma EscapeIsInRange(cfg: Config, d: Decision, steps: seq<Value>, i: int)
    requires EscapesAt(cfg, d, steps, i)
    ensures 0 <= i < |steps| && steps[i].Dict?
  {
  }

  /** Nothing before the escaping step stops the run. */
  lemma {:induction false} StepsReach(cfg: Config, e: Engine, d: Decision, steps: seq<Value>, n: nat, i: nat,
                                      answers: int -> Answers)
    requires EscapesAt(cfg, d, steps, i) && n <= i
    requires forall k :: answers(k) == ALL_GRANTED
    ensures var r := StepsRun(cfg, e, d, steps, n, answers); r.ending.Finished? && e.log <= r.engine.log
  {
    hide SubDecision, Handled, GatedAction, RaisesAtGate, Manipulative;
    if n > 0 {
      StepsReach(cfg, e, d, steps, n - 1, i, answers);
      if steps[n - 1].Dict? {
        var before, step := StepsRun(cfg, e, d, steps, n - 1, answers), steps[n - 1].entries;
        SubDecisionIs(d, step, n - 1);
        GrantedGoesOn(cfg, before.engine, SubDecision(d, step, n - 1));
      }
    }
  }

  lemma GrantedGoesOn(cfg: Config, e: Engine, sub: Decision)
    requires !RaisesAtGate(sub) && !Truthy(Get(sub, "type"))
    ensures var r := Handled(cfg, e, sub, None, ALL_GRANTED); r.ending.Finished? && e.log <= r.engine.log
  {
    hide Execute, Manipulative;
  }

  lemma StepIsCalled(cfg: Config, e: Engine, d: Decision, steps: seq<Value>, i: nat, answers: int -> Answers)
    requires EscapesAt(cfg, d, steps, i) && answers(i) == ALL_GRANTED
    requires var r := StepsRun(cfg, e, d, steps, i, answers); r.ending.Finished? && e.log <= r.engine.log
    ensures var r := StepsRun(cfg, e, d, steps, i + 1, answers);
            e.log <= r.engine.log && !NoGatedCall(cfg, r.engine.log, |e.log|)
  {
    hide SubDecision, Handled;
    var before := StepsRun(cfg, e, d, steps, i, answers);
    var sub := SubDecision(d, steps[i].entries, i);
    SubDecisionIs(d, steps[i].entries, i);
    StepReaches(cfg, before.engine, sub, None);
    var log := StepsRun(cfg, e, d, steps, i + 1, answers).engine.log;
    assert log[|before.engine.log| + 1].handler in cfg.gated;
  }

  lemma {:induction false} CallsStay(cfg: Config, e: Engine, d: Decision, steps: seq<Value>, i: nat, n: nat,
                                     answers: int -> Answers)
    requires i <= n <= |steps| && |e.log| <= |StepsRun(cfg, e, d, steps, i, answers).engine.log|
    requires !NoGatedCall(cfg, StepsRun(cfg, e, d, steps, i, answers).engine.log, |e.log|)
    ensures !NoGatedCall(cfg, StepsRun(cfg, e, d, steps, n, answers).engine.log, |e.log|)
  {
    hide GateVerdict, Execute, Sealed, SubDecision;
    if i < n {
      CallsStay(cfg, e, d, steps, i, n - 1, answers);
      var before := StepsRun(cfg, e, d, steps, n - 1, answers).engine.log;
      var after := StepsRun(cfg, e, d, steps, n, answers).engine.log;
      assert before <= after;
      var k :| |e.log| <= k < |before| && before[k].Call? && before[k].handler in cfg.gated;
      assert after[k] == before[k];
    }
  }

  lemma SubDecisionIs(d: Decision, step: Decision, index: nat)
    ensures var sub := SubDecision(d, step, index);
            Get(sub, ACTION) == Get(step, ACTION) && POLICY !in sub && !Truthy(Get(sub, "type"))
  {
  }

  /** A granted step of a gated action is called. */
  lemma StepReaches(cfg: Config, e: Engine, sub: Decision, attention: Option<string>)
    requires GatedAction(cfg, sub) && !Manipulative(sub) && POLICY !in sub && !Truthy(Get(sub, "type"))
    requires Attentive(attention)
    ensures var log := Handled(cfg, e, sub, attention, ALL_GRANTED).engine.log;
            && |log| == |e.log| + 2 && e.log <= log && log[|e.log| + 1].Call?
            && log[|e.log| + 1].handler == Get(sub, ACTION).s
  {
    hide Dispatch, Manipulative;
    GrantedIsExecuted(cfg, sub, e.seqNo + 1);
  }

  lemma GrantedIsExecuted(cfg: Config, sub: Decision, seqNo: nat)
    requires GatedAction(cfg, sub) && POLICY !in sub
    ensures var r := Execute(cfg, Sealed(cfg, sub, seqNo));
            r.Some? && r.value.Call? && r.value.handler == Get(sub, ACTION).s
  {
    hide Fits;
    assert Without(Sealed(cfg, sub, seqNo), POLICY) == Traced(sub, seqNo);
    TraceKeepsDispatch(cfg, sub, seqNo);
    DispatchNames(cfg, sub);
  }

  lemma DispatchNames(cfg: Config, d: Decision)
    ensures Get(d, ACTION).Text? && Dispatch(cfg, d).Some? ==> Dispatch(cfg, d).value == Get(d, ACTION).s
  {
    hide Fits;
  }

  function Wish(name: string, args: Decision): Decision {
    map[ACTION := Text(name), PARAMS := Dict(args)]
  }

  /** In particular the same granted wish for any consent-gated action that can be executed at
      all is refused as a decision of its own, and called as a step. */
  lemma StepEscapesAttention(cfg: Config, e: Engine, name: string, args: Decision, attention: Option<string>)
    requires GatedAction(cfg, Wish(name, args)) && !Manipulative(Wish(name, args)) && !Attentive(attention)
    ensures Handled(cfg, e, Wish(name, args), attention, ALL_GRANTED).engine.log
            == e.log + [Gate(Wish(name, args), attention, ALL_GRANTED, Blocked)]
    ensures var t := Task(true, true, Stepped(name, args), attention, (i: int) => ALL_GRANTED);
            var log := TaskRun(cfg, e, t).engine.log;
            |log| == |e.log| + 2 && log[|e.log| + 1].Call? && log[|e.log| + 1].handler == name
  {
    var t := Task(true, true, Stepped(name, args), attention, (i: int) => ALL_GRANTED);
    WishIsBlocked(cfg, e, name, args, attention);
    WishAsStep(cfg, name, args);
    SteppedIsHandled(cfg, e, name, args, t);
    hide Handled, GatedAction, SubDecision, TaskRun, Manipulative;
    StepReaches(cfg, Decided(e, t), SubDecision(t.decision, Wish(name, args), 0), None);
  }

  lemma WishIsBlocked(cfg: Config, e: Engine, name: string, args: Decision, attention: Option<string>)
    requires name in cfg.gated && !Attentive(attention) && !Manipulative(Wish(name, args))
    ensures Handled(cfg, e, Wish(name, args), attention, ALL_GRANTED)
            == Done(Engine(e.seqNo, e.log + [Gate(Wish(name, args), attention, ALL_GRANTED, Blocked)]), Finished)
  {
    hide Manipulative;
  }

  lemma WishAsStep(cfg: Config, name: string, args: Decision)
    requires GatedAction(cfg, Wish(name, args)) && !Manipulative(Wish(name, args))
    ensures var sub := SubDecision(Stepped(name, args), Wish(name, args), 0);
            GatedAction(cfg, sub) && !Manipulative(sub) && POLICY !in sub && !Truthy(Get(sub, "type"))
            && Get(sub, ACTION) == Text(name)
  {
    var wish, sub := Wish(name, args), SubDecision(Stepped(name, args), Wish(name, args), 0);
    assert Get(sub, PARAMS) == Dict(args);
    SameFit(cfg, wish, sub, name);
  }

  /** Whether an argument fits does not depend on the keys a step leaves out. */
  lemma SameFit(cfg: Config, d: Decision, sub: Decision, name: string)
    requires Get(d, PARAMS) == Get(sub, PARAMS)
    requires forall key :: key in {"api_endpoint", "query", "update_query", "command"} ==> key !in d && key !in sub
    ensures Fits(cfg, d, name) <==> Fits(cfg, sub, name)
  {
  }

  function Stepped(name: string, args: Decision): Decision {
    map[ACTION := Text(MULTI_STEP), PARAMS := Dict(map["steps" := List([Dict(Wish(name, args))])])]
  }

  lemma SteppedIsHandled(cfg: Config, e: Engine, name: string, args: Decision, t: Task)
    requires t.admitted && t.decision == Stepped(name, args)
    ensures TaskRun(cfg, e, t)
            == Handled(cfg, Decided(e, t), SubDecision(t.decision, Wish(name, args), 0), None, t.answers(0))
  {
    hide Handled, SubDecision;
    var steps := [Dict(Wish(name, args))];
    assert "steps" in t.decision[PARAMS].entries && Truthy(List(steps));
    assert StepsOf(t.decision) == Some(steps);
    assert StepsRun(cfg, Decided(e, t), t.decision, steps, 0, t.answers) == Done(Decided(e, t), Finished);
  }

  /** A call without an address is not one: it escapes nothing, whatever is allowed. */
  lemma EmptyWishIsNotExecuted(cfg: Config, name: string)
    requires name == "api_call" || name == "database_update"
    ensures !GatedAction(cfg, Wish(name, map[])) && !Escapes(cfg, Stepped(name, map[]))
  {
    hide Manipulative, RaisesAtGate;
    var d := Stepped(name, map[]);
    var steps := [Dict(Wish(name, map[]))];
    assert "steps" in d[PARAMS].entries && Truthy(List(steps));
    assert StepsOf(d) == Some(steps);
    assert SubDecision(d, Wish(name, map[]), 0)[PARAMS] == Dict(map[]);
  }
}
