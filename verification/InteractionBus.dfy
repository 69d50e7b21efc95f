/** The human-interaction bus: presence, turns, and questions waiting for their answer. */
module InteractionBus {
  import opened Options
  import opened Common

  const DEBOUNCE := 1.5
  const ANSWER_TTL := 120.0
  const MAX_EVENTS := 8
  const MAX_TURNS := 12

  datatype Kind = Visual | Speech | Presence | Gesture | Interaction | Sound

  /** A valid observation. `present` and `person` are the payload's own answers, `transcript`
      its stripped words. */
  datatype Observation = Observation(kind: Kind, present: Option<bool>, person: Option<bool>, transcript: string)

  /** A valid response of the agent; only speech can ask. */
  datatype Response = Response(speech: bool, content: string, expectsAnswer: bool)

  datatype Question = Question(text: string, ts: real)

  datatype Change = Present | Left | Returned

  /** A conversation and the turn within it. */
  datatype Tag = Tag(conversation: nat, turn: nat)

  datatype RoundTrip = RoundTrip(question: string, answer: string, seconds: real, tag: Tag, observation: nat)

  datatype Said = Said(human: bool, text: string, conversation: nat)

  /** What the buffer keeps of an observation. */
  datatype Entry = Entry(observation: nat, tag: Option<Tag>, answerTo: Option<string>, change: Option<Change>)

  datatype Bus = Bus(present: bool, hasBeenPresent: bool, changedAt: real, pending: Option<Question>,
                     events: seq<RoundTrip>, said: seq<Said>, buffer: seq<Entry>,
                     conversation: nat, observations: nat, responses: nat, turns: nat, turn: Option<nat>, rejected: nat)

  const FRESH := Bus(false, false, 0.0, None, [], [], [], 0, 0, 0, 0, None, 0)

  function Abs(x: real): real {
    if x < 0.0 then -x else x
  }

  /** Everything but an explicit absence means that somebody is there. */
  predicate ImpliesPresent(o: Observation) {
    !(o.kind.Presence? && o.present == Some(false)) && !(o.kind.Visual? && o.person == Some(false))
  }

  /** The words of a speech observation. */
  function Words(o: Observation): string {
    if o.kind.Speech? then o.transcript else ""
  }

  /** Where a transcript heard now belongs. */
  function NextTag(b: Bus): Tag {
    Tag(b.conversation, if b.turn.Some? then b.turn.value else b.turns + 1)
  }

  /** The transition an observation causes, if any: never within the debounce of the last one. */
  function ChangeOn(b: Bus, now: real, implied: bool): Option<Change> {
    if Abs(now - b.changedAt) < DEBOUNCE || implied == b.present then None
    else if !implied then Some(Left)
    else Some(if b.hasBeenPresent then Returned else Present)
  }

  function ChangeNow(b: Bus, now: real, o: Observation): Option<Change> {
    ChangeOn(b, now, ImpliesPresent(o))
  }

  predicate Answers(b: Bus, now: real, words: string) {
    words != "" && b.pending.Some? && now - b.pending.value.ts <= ANSWER_TTL
  }

  function Trip(b: Bus, now: real, words: string): RoundTrip
    requires Answers(b, now, words)
  {
    RoundTrip(b.pending.value.text, words, now - b.pending.value.ts, NextTag(b), b.observations)
  }

  /** The words are filed under the running conversation, whatever happens to presence next. */
  function Heard(b: Bus, now: real, words: string): Bus {
    if words == "" then b
    else b.(turns := if b.turn.Some? then b.turns else b.turns + 1, turn := Some(NextTag(b).turn),
            events := if Answers(b, now, words) then Last(b.events + [Trip(b, now, words)], MAX_EVENTS) else b.events,
            pending := None,
            said := Last(b.said + [Said(true, words, b.conversation)], MAX_TURNS))
  }

  function Moved(b: Bus, now: real, change: Option<Change>): Bus {
    match change
    case None => b
    case Some(Present) => b.(present := true, hasBeenPresent := true, changedAt := now)
    case Some(Returned) =>
      b.(present := true, hasBeenPresent := true, changedAt := now,
         conversation := b.conversation + 1, turns := 0, turn := None)
    case Some(Left) => b.(present := false, changedAt := now)
  }

  function Numbered(b: Bus): Bus {
    b.(observations := b.observations + 1)
  }

  function EntryFor(b: Bus, now: real, o: Observation): Entry {
    var words := Words(o);
    Entry(b.observations, if words == "" then None else Some(NextTag(b)),
          if Answers(b, now, words) then Some(b.pending.value.text) else None, ChangeNow(b, now, o))
  }

  function Published(b: Bus, capacity: nat, now: real, o: Observation): Bus {
    var n := Numbered(b);
    Moved(Heard(n, now, Words(o)), now, ChangeNow(b, now, o))
      .(buffer := Last(b.buffer + [EntryFor(n, now, o)], capacity))
  }

  function Responded(b: Bus, now: real, r: Response): Bus {
    var t := b.(responses := b.responses + 1);
    if !r.speech || r.content == "" then t
    else t.(said := Last(b.said + [Said(false, r.content, b.conversation)], MAX_TURNS), turn := None,
            pending := if r.expectsAnswer then Some(Question(r.content, now)) else b.pending)
  }

  function Expecting(b: Bus, now: real, text: string): Bus {
    if text == "" then b else b.(pending := Some(Question(text, now)))
  }

  class HumanBus {
    const capacity: nat
    var present: bool
    var hasBeenPresent: bool
    var presenceChangedAt: real
    var pendingQuestion: Option<Question>
    var conversationEvents: seq<RoundTrip>
    var said: seq<Said>
    var buffer: seq<Entry>
    var conversation: nat
    var obsSeq: nat
    var rspSeq: nat
    var turnSeq: nat
    var currentTurn: Option<nat>
    var rejected: nat

    ghost function View(): Bus
      reads this
    {
      Bus(present, hasBeenPresent, presenceChangedAt, pendingQuestion, conversationEvents, said, buffer,
          conversation, obsSeq, rspSeq, turnSeq, currentTurn, rejected)
    }

    constructor (capacity: int)
      ensures View() == FRESH && this.capacity == if capacity < 16 then 16 else capacity
    {
      this.capacity := if capacity < 16 then 16 else capacity;
      present, hasBeenPresent, presenceChangedAt, pendingQuestion := false, false, 0.0, None;
      conversationEvents, said, buffer := [], [], [];
      conversation, obsSeq, rspSeq, turnSeq, currentTurn, rejected := 0, 0, 0, 0, None, 0;
    }

    /** None stands for whatever fails validation. */
    method Publish(observation: Option<Observation>, now: real) returns (accepted: bool, change: Option<Change>)
      modifies this
      ensures accepted <==> observation.Some?
      ensures observation.None? ==> change == None && View() == old(View()).(rejected := old(rejected) + 1)
      ensures observation.Some? ==>
                && change == ChangeNow(old(View()), now, observation.value)
                && View() == Published(old(View()), capacity, now, observation.value)
    {
      if observation.None? {
        rejected := rejected + 1;
        return false, None;
      }
      var o := observation.value;
      obsSeq := obsSeq + 1;
      ghost var n := View();
      assert n == Numbered(old(View()));
      var tag, answerTo := Hear(Words(o), now);
      change := MovePresence(ImpliesPresent(o), now);
      buffer := Last(buffer + [Entry(obsSeq, tag, answerTo, change)], capacity);
      accepted := true;
    }

    method MovePresence(implied: bool, now: real) returns (change: Option<Change>)
      modifies this`present, this`hasBeenPresent, this`presenceChangedAt
      modifies this`conversation, this`turnSeq, this`currentTurn
      ensures change == ChangeOn(old(View()), now, implied) && View() == Moved(old(View()), now, change)
    {
      change := None;
      if Abs(now - presenceChangedAt) >= DEBOUNCE {
        if implied && !present {
          present, presenceChangedAt := true, now;
          change := Some(if hasBeenPresent then Returned else Present);
          if hasBeenPresent {
            conversation, turnSeq, currentTurn := conversation + 1, 0, None;
          }
          hasBeenPresent := true;
        } else if !implied && present {
          present, presenceChangedAt := false, now;
          change := Some(Left);
        }
      }
    }

    /** Files the words and pairs them with the pending question, if it is fresh. */
    method Hear(words: string, now: real) returns (tag: Option<Tag>, answerTo: Option<string>)
      modifies this`turnSeq, this`currentTurn, this`conversationEvents, this`pendingQuestion, this`said
      ensures View() == Heard(old(View()), now, words)
      ensures tag == if words == "" then None else Some(NextTag(old(View())))
      ensures answerTo == if Answers(old(View()), now, words) then Some(old(pendingQuestion).value.text) else None
    {
      tag, answerTo := None, None;
      if words == "" {
        return;
      }
      if currentTurn.None? {
        turnSeq := turnSeq + 1;
        currentTurn := Some(turnSeq);
      }
      tag := Some(Tag(conversation, currentTurn.value));
      if pendingQuestion.Some? && now - pendingQuestion.value.ts <= ANSWER_TTL {
        var q := pendingQuestion.value;
        answerTo := Some(q.text);
        var trip := RoundTrip(q.text, words, now - q.ts, tag.value, obsSeq);
        conversationEvents := Last(conversationEvents + [trip], MAX_EVENTS);
      }
      pendingQuestion := None;
      said := Last(said + [Said(true, words, conversation)], MAX_TURNS);
    }

    method RecordAgentResponse(response: Option<Response>, now: real) returns (accepted: bool)
      modifies this
      ensures accepted <==> response.Some?
      ensures View() == if response.None? then old(View()).(rejected := old(rejected) + 1)
                        else Responded(old(View()), now, response.value)
    {
      if response.None? {
        rejected := rejected + 1;
        return false;
      }
      rspSeq := rspSeq + 1;
      if response.value.speech && response.value.content != "" {
        said := Last(said + [Said(false, response.value.content, conversation)], MAX_TURNS);
        currentTurn := None;
        if response.value.expectsAnswer {
          pendingQuestion := Some(Question(response.value.content, now));
        }
      }
      accepted := true;
    }

    method ExpectAnswer(question: string, now: real) returns (marked: bool)
      modifies this`pendingQuestion
      ensures marked == (question != "") && View() == Expecting(old(View()), now, question)
    {
      if question == "" {
        return false;
      }
      pendingQuestion := Some(Question(question, now));
      marked := true;
    }

    method DrainConversationEvents() returns (drained: seq<RoundTrip>)
      modifies this`conversationEvents
      ensures drained == old(conversationEvents) && View() == old(View()).(events := [])
    {
      drained := conversationEvents;
      conversationEvents := [];
    }
  }
}
