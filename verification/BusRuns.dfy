/** What the interaction bus promises over whole runs. */
module BusRuns {
  import opened Options
  import opened Common
  import opened InteractionBus

  datatype Event =
    | Observe(now: real, o: Observation)
    | Respond(now: real, r: Response)
    | Expect(now: real, text: string)
    | Drain
    | Refuse

  function Next(b: Bus, capacity: nat, e: Event): Bus {
    match e
    case Observe(now, o) => Published(b, capacity, now, o)
    case Respond(now, r) => Responded(b, now, r)
    case Expect(now, text) => Expecting(b, now, text)
    case Drain => b.(events := [])
    case Refuse => b.(rejected := b.rejected + 1)
  }

  function After(capacity: nat, run: seq<Event>): Bus {
    if run == [] then FRESH else Next(After(capacity, run[..|run| - 1]), capacity, run[|run| - 1])
  }

  // ---- one event, over what it carries and what the bus remembers ----

  /** Somebody is taken to be there unless a presence or a visual observation says otherwise, and
      presence moves when that differs from what was remembered, outside the debounce. */
  lemma PresenceOverFields(b: Bus, now: real, o: Observation)
    ensures var gone := (o.kind.Presence? && o.present == Some(false)) || (o.kind.Visual? && o.person == Some(false));
            var settled := now - b.changedAt >= 1.5 || b.changedAt - now >= 1.5;
            && (ChangeNow(b, now, o) == Some(Left) <==> settled && gone && b.present)
            && (ChangeNow(b, now, o) == Some(Returned) <==> settled && !gone && !b.present && b.hasBeenPresent)
            && (ChangeNow(b, now, o) == Some(Present) <==> settled && !gone && !b.present && !b.hasBeenPresent)
  {
  }

  /** Words: they are remembered, belong to the open turn or a new one, settle the pending question,
      and answer it if it is at most 120 seconds old. */
  lemma WordsOverFields(b: Bus, capacity: nat, now: real, o: Observation)
    requires o.kind.Speech? && o.transcript != ""
    ensures var t := Published(b, capacity, now, o);
            var tag := Tag(b.conversation, if b.turn.Some? then b.turn.value else b.turns + 1);
            var answers := b.pending.Some? && now - b.pending.value.ts <= 120.0;
            && t.pending == None && t.said == Last(b.said + [Said(true, o.transcript, b.conversation)], 12)
            && t.events == (if !answers then b.events
                            else Last(b.events + [RoundTrip(b.pending.value.text, o.transcript,
                                                            now - b.pending.value.ts, tag, b.observations + 1)], 8))
            && t.buffer == Last(b.buffer + [Entry(b.observations + 1, Some(tag),
                                                  if answers then Some(b.pending.value.text) else None,
                                                  ChangeNow(b, now, o))], capacity)
            && (ChangeNow(b, now, o) != Some(Returned) ==>
                  t.turn == Some(tag.turn) && t.turns == if b.turn.Some? then b.turns else b.turns + 1)
  {
  }

  /** Anything else leaves words, turn and question alone. */
  lemma SilenceOverFields(b: Bus, capacity: nat, now: real, o: Observation)
    requires !o.kind.Speech? || o.transcript == ""
    ensures var t := Published(b, capacity, now, o);
            && t.pending == b.pending && t.said == b.said && t.events == b.events
            && t.buffer == Last(b.buffer + [Entry(b.observations + 1, None, None, ChangeNow(b, now, o))], capacity)
            && (ChangeNow(b, now, o) != Some(Returned) ==> t.turn == b.turn && t.turns == b.turns)
  {
  }

  /** What a move does: a return opens the next conversation, with no turn yet. */
  lemma MoveOverFields(b: Bus, capacity: nat, now: real, o: Observation)
    ensures var t := Published(b, capacity, now, o);
            && t.observations == b.observations + 1 && t.responses == b.responses && t.rejected == b.rejected
            && match ChangeNow(b, now, o)
               case None => t.present == b.present && t.hasBeenPresent == b.hasBeenPresent
                            && t.changedAt == b.changedAt && t.conversation == b.conversation
               case Some(Left) => !t.present && t.hasBeenPresent == b.hasBeenPresent
                                  && t.changedAt == now && t.conversation == b.conversation
               case Some(Present) => t.present && t.hasBeenPresent && t.changedAt == now
                                     && t.conversation == b.conversation
               case Some(Returned) => t.present && t.hasBeenPresent && t.changedAt == now
                                      && t.conversation == b.conversation + 1 && t.turns == 0 && t.turn == None
  {
  }

  /** The agent's own part: speech is remembered, ends the turn and may leave a question; a
      question can also be announced without words. */
  lemma AgentOverFields(b: Bus, now: real, r: Response, text: string)
    ensures var t := Responded(b, now, r);
            && t.responses == b.responses + 1
            && (r.speech && r.content != "" ==>
                  && t.said == Last(b.said + [Said(false, r.content, b.conversation)], 12) && t.turn == None
                  && t.pending == if r.expectsAnswer then Some(Question(r.content, now)) else b.pending)
            && (!r.speech || r.content == "" ==> t.said == b.said && t.turn == b.turn && t.pending == b.pending)
            && t == b.(responses := t.responses, said := t.said, turn := t.turn, pending := t.pending)
    ensures Expecting(b, now, text)
            == b.(pending := if text != "" then Some(Question(text, now)) else b.pending)
  {
  }

  /** The counters of a run. */
  function Count(run: seq<Event>, counts: Event -> bool): nat {
    if run == [] then 0 else Count(run[..|run| - 1], counts) + if counts(run[|run| - 1]) then 1 else 0
  }

  lemma {:induction false} CountersAreHistory(capacity: nat, run: seq<Event>)
    ensures var b := After(capacity, run);
            && b.observations == Count(run, (e: Event) => e.Observe?)
            && b.responses == Count(run, (e: Event) => e.Respond?)
            && b.rejected == Count(run, (e: Event) => e.Refuse?)
  {
    if run != [] {
      CountersAreHistory(capacity, run[..|run| - 1]);
    }
  }

  // ---- presence ----

  datatype Move = Move(change: Change, at: real)

  function MoveNow(b: Bus, e: Event): seq<Move> {
    if e.Observe? && ChangeNow(b, e.now, e.o).Some? then [Move(ChangeNow(b, e.now, e.o).value, e.now)] else []
  }

  /** The presence events a run emits, with their times. */
  function Moves(capacity: nat, run: seq<Event>): seq<Move> {
    if run == [] then []
    else
      var init := run[..|run| - 1];
      Moves(capacity, init) + MoveNow(After(capacity, init), run[|run| - 1])
  }

  /** First somebody arrives; after that they leave and return in turn. */
  ghost predicate ComesAndGoes(s: seq<Move>) {
    forall i :: 0 <= i < |s| ==> s[i].change == if i == 0 then Present else if i % 2 == 1 then Left else Returned
  }

  ghost predicate Spaced(s: seq<Move>) {
    forall i :: 0 < i < |s| ==> Abs(s[i].at - s[i - 1].at) >= DEBOUNCE
  }

  ghost predicate Remembers(b: Bus, s: seq<Move>) {
    && (b.present <==> |s| % 2 == 1) && (b.hasBeenPresent <==> s != [])
    && b.changedAt == (if s == [] then 0.0 else s[|s| - 1].at)
    && b.conversation == if s == [] then 0 else (|s| - 1) / 2
  }

  /** Presence events form PRESENT (LEFT RETURNED)* with an optional last LEFT, and no two in a
      row are closer than the debounce, however the clock moves. Every return opens a conversation. */
  lemma {:induction false} PresenceComesAndGoes(capacity: nat, run: seq<Event>)
    ensures var s := Moves(capacity, run);
            ComesAndGoes(s) && Spaced(s) && Remembers(After(capacity, run), s)
  {
    hide Next, MoveNow, ComesAndGoes, Spaced, Remembers;
    if run == [] {
      NothingYet();
    } else {
      var init, e := run[..|run| - 1], run[|run| - 1];
      PresenceComesAndGoes(capacity, init);
      PresenceStep(After(capacity, init), capacity, e, Moves(capacity, init));
    }
  }

  lemma NothingYet()
    ensures ComesAndGoes([]) && Spaced([]) && Remembers(FRESH, [])
  {
  }

  lemma PresenceStep(b: Bus, capacity: nat, e: Event, s: seq<Move>)
    requires ComesAndGoes(s) && Spaced(s) && Remembers(b, s)
    ensures var t := s + MoveNow(b, e);
            ComesAndGoes(t) && Spaced(t) && Remembers(Next(b, capacity, e), t)
  {
    hide Next, Abs, ImpliesPresent;
    PresenceFields(b, capacity, e);
    if MoveNow(b, e) == [] {
      assert s + [] == s;
    } else {
      hide ChangeOn;
      MoveFits(b, e, s);
    }
  }

  /** The next move continues the pattern, far enough from the last. */
  lemma MoveFits(b: Bus, e: Event, s: seq<Move>)
    requires Remembers(b, s) && MoveNow(b, e) != []
    ensures var m := MoveNow(b, e)[0];
            && MoveNow(b, e) == [m] && m.at == e.now && (s != [] ==> Abs(m.at - s[|s| - 1].at) >= DEBOUNCE)
            && m.change == if s == [] then Present else if |s| % 2 == 1 then Left else Returned
  {
    hide Abs, ImpliesPresent;
  }

  lemma PresenceFields(b: Bus, capacity: nat, e: Event)
    ensures var t := Next(b, capacity, e);
            if MoveNow(b, e) != []
            then t.changedAt == e.now && t.present == !b.present
                 && t.hasBeenPresent == (b.hasBeenPresent || MoveNow(b, e)[0].change != Left)
                 && t.conversation == b.conversation + if MoveNow(b, e)[0].change == Returned then 1 else 0
            else t.changedAt == b.changedAt && t.present == b.present && t.hasBeenPresent == b.hasBeenPresent
                 && t.conversation == b.conversation
  {
  }

  // ---- questions and answers ----

  predicate Asks(e: Event) {
    match e
    case Respond(_, r) => r.speech && r.content != "" && r.expectsAnswer
    case Expect(_, text) => text != ""
    case _ => false
  }

  function Asked(e: Event): Question
    requires Asks(e)
  {
    if e.Respond? then Question(e.r.content, e.now) else Question(e.text, e.now)
  }

  predicate Speaks(e: Event) {
    e.Observe? && Words(e.o) != ""
  }

  /** Question `j` is the latest one before `i`, and no words were heard in between. */
  ghost predicate Waiting(run: seq<Event>, j: int, i: int) {
    && 0 <= j < i <= |run| && Asks(run[j])
    && forall k {:trigger run[k]} :: j < k < i ==> !Asks(run[k]) && !Speaks(run[k])
  }

  /** Words `i` answer question `j`. */
  ghost predicate Pairs(run: seq<Event>, j: int, i: int) {
    && i < |run| && Waiting(run, j, i) && Speaks(run[i])
    && run[i].now - Asked(run[j]).ts <= ANSWER_TTL
  }

  /** No question is answered twice, and no words answer two questions. */
  lemma PairingIsOneToOne(run: seq<Event>, j: int, i: int, k: int, l: int)
    requires Pairs(run, j, i) && Pairs(run, k, l)
    ensures j == k <==> i == l
  {
  }

  /** What is pending is the question that is waiting in the run's history, and nothing else. */
  lemma {:induction false} PendingIsHistory(capacity: nat, run: seq<Event>)
    ensures var q := After(capacity, run).pending;
            if q.None? then forall j :: !Waiting(run, j, |run|)
            else exists j :: Waiting(run, j, |run|) && q == Some(Asked(run[j]))
  {
    if run != [] {
      var init, e := run[..|run| - 1], run[|run| - 1];
      PendingIsHistory(capacity, init);
      PendingStep(After(capacity, init), capacity, e);
      var q := After(capacity, run).pending;
      if Asks(e) {
        assert Waiting(run, |run| - 1, |run|) && run[|run| - 1] == e;
      } else {
        forall j: int ensures Waiting(run, j, |run|) <==> !Speaks(e) && Waiting(init, j, |init|) {
          WaitingStep(run, j);
        }
        if q.Some? {
          var j :| Waiting(init, j, |init|) && q == Some(Asked(init[j]));
          assert Waiting(run, j, |run|) && init[j] == run[j];
        }
      }
    }
  }

  lemma PendingStep(b: Bus, capacity: nat, e: Event)
    ensures Next(b, capacity, e).pending
            == if Asks(e) then Some(Asked(e)) else if Speaks(e) then None else b.pending
  {
  }

  lemma WaitingStep(run: seq<Event>, j: int)
    requires run != [] && !Asks(run[|run| - 1])
    ensures Waiting(run, j, |run|) <==> !Speaks(run[|run| - 1]) && Waiting(run[..|run| - 1], j, |run| - 1)
  {
    var init := run[..|run| - 1];
    assert forall k :: 0 <= k < |init| ==> init[k] == run[k];
    if Waiting(run, j, |run|) {
      assert j != |run| - 1;
      assert !Speaks(run[|run| - 1]);
    }
  }

  lemma WaitingInPrefix(run: seq<Event>, n: nat, j: int)
    requires n <= |run|
    ensures Waiting(run[..n], j, n) <==> Waiting(run, j, n)
  {
    assert forall k :: 0 <= k < n ==> run[..n][k] == run[k];
  }

  /** The bus takes words as an answer iff they pair with a question of the history. */
  lemma AnswersIff(capacity: nat, run: seq<Event>, i: nat)
    requires i < |run| && run[i].Observe?
    ensures var b := After(capacity, run[..i]);
            && (Answers(Numbered(b), run[i].now, Words(run[i].o)) <==> exists j :: Pairs(run, j, i))
            && (forall j :: Pairs(run, j, i) ==> b.pending == Some(Asked(run[j])))
  {
    PendingIsHistory(capacity, run[..i]);
    forall j: int ensures Waiting(run[..i], j, i) <==> Waiting(run, j, i) {
      WaitingInPrefix(run, i, j);
    }
    var q := After(capacity, run[..i]).pending;
    forall j | Pairs(run, j, i) ensures q == Some(Asked(run[j])) {
      var k :| Waiting(run[..i], k, i) && q == Some(Asked(run[..i][k]));
      LatestIsUnique(run, j, k, i);
    }
    if Answers(Numbered(After(capacity, run[..i])), run[i].now, Words(run[i].o)) {
      var k :| Waiting(run[..i], k, i) && q == Some(Asked(run[..i][k]));
      assert Pairs(run, k, i);
    }
  }

  lemma LatestIsUnique(run: seq<Event>, j: int, k: int, i: int)
    requires Waiting(run, j, i) && Waiting(run, k, i)
    ensures j == k
  {
    assert Asks(run[j]) && Asks(run[k]);
  }

  function Heard(run: seq<Event>): nat {
    if run == [] then 0 else Heard(run[..|run| - 1]) + if run[|run| - 1].Observe? then 1 else 0
  }

  /** The round trips completed since the last drain, read off the history. */
  ghost function Trips(capacity: nat, run: seq<Event>): seq<RoundTrip> {
    if run == [] || run[|run| - 1].Drain? then []
    else
      var i := |run| - 1;
      Trips(capacity, run[..i])
      + if exists j :: Pairs(run, j, i)
        then
          var j :| Pairs(run, j, i);
          [RoundTrip(Asked(run[j]).text, Words(run[i].o), run[i].now - Asked(run[j]).ts,
                     NextTag(After(capacity, run[..i])), Heard(run))]
        else []
  }

  /** What the bus holds for the next drain: the last eight of those round trips. */
  lemma {:induction false} EventsAreTrips(capacity: nat, run: seq<Event>)
    ensures After(capacity, run).events == Last(Trips(capacity, run), MAX_EVENTS)
    ensures After(capacity, run).observations == Heard(run)
  {
    hide Next, Last;
    NoEvents();
    if run != [] {
      var i := |run| - 1;
      var b, e := After(capacity, run[..i]), run[i];
      EventsAreTrips(capacity, run[..i]);
      EventStep(b, capacity, e);
      if e.Observe? {
        AnswersIff(capacity, run, i);
      }
      if e.Observe? && Answers(Numbered(b), e.now, Words(e.o)) {
        LastOfLast(Trips(capacity, run[..i]), Trip(Numbered(b), e.now, Words(e.o)), MAX_EVENTS);
        assert Trips(capacity, run) == Trips(capacity, run[..i]) + [Trip(Numbered(b), e.now, Words(e.o))];
      } else if !e.Drain? {
        assert Trips(capacity, run) == Trips(capacity, run[..i]);
      }
    }
  }

  lemma NoEvents()
    ensures Last<RoundTrip>([], MAX_EVENTS) == []
  {
  }

  lemma EventStep(b: Bus, capacity: nat, e: Event)
    ensures var t := Next(b, capacity, e);
            && t.observations == b.observations + (if e.Observe? then 1 else 0)
            && t.events == if e.Drain? then []
                           else if e.Observe? && Answers(Numbered(b), e.now, Words(e.o))
                           then Last(b.events + [Trip(Numbered(b), e.now, Words(e.o))], MAX_EVENTS)
                           else b.events
  {
  }

  // ---- turns ----

  /** What ends a turn: the agent speaking, or the user coming back after an absence. */
  predicate Breaks(b: Bus, e: Event) {
    match e
    case Respond(_, r) => r.speech && r.content != ""
    case Observe(now, o) => ChangeNow(b, now, o) == Some(Returned)
    case _ => false
  }

  function TagAt(capacity: nat, run: seq<Event>, i: nat): Tag
    requires i < |run|
  {
    NextTag(After(capacity, run[..i]))
  }

  predicate Earlier(a: Tag, b: Tag) {
    a.conversation < b.conversation || (a.conversation == b.conversation && a.turn < b.turn)
  }

  ghost predicate Broken(capacity: nat, run: seq<Event>, i: nat, n: nat)
    requires n <= |run|
  {
    exists k :: i <= k < n && Breaks(After(capacity, run[..k]), run[k])
  }

  lemma {:induction false} OpenTurnIsLatest(capacity: nat, run: seq<Event>)
    ensures var b := After(capacity, run); b.turn.Some? ==> b.turn.value == b.turns
  {
    if run != [] {
      OpenTurnIsLatest(capacity, run[..|run| - 1]);
    }
  }

  /** From words heard at `i` on, the turn stays open until something ends it, and is never
      opened again after that. */
  lemma {:induction false} TurnAfter(capacity: nat, run: seq<Event>, i: nat)
    requires i < |run| && Speaks(run[i])
    ensures var b, tag := After(capacity, run), TagAt(capacity, run, i);
            if Broken(capacity, run, i, |run|) then Earlier(tag, NextTag(b))
            else b.turn.Some? && NextTag(b) == tag
    decreases |run|
  {
    hide Next, Breaks, Broken;
    var n := |run| - 1;
    var b := After(capacity, run[..n]);
    OpenTurnIsLatest(capacity, run[..n]);
    TagStep(b, capacity, run[n]);
    if i < n {
      assert run[..n][..i] == run[..i] && run[..n][i] == run[i];
      TurnAfter(capacity, run[..n], i);
      BrokenStep(capacity, run, i);
    } else {
      BrokenOnce(capacity, run);
    }
  }

  lemma BrokenOnce(capacity: nat, run: seq<Event>)
    requires run != []
    ensures var n := |run| - 1; Broken(capacity, run, n, |run|) <==> Breaks(After(capacity, run[..n]), run[n])
  {
  }

  lemma BrokenStep(capacity: nat, run: seq<Event>, i: nat)
    requires i < |run| - 1
    ensures var n := |run| - 1;
            Broken(capacity, run, i, |run|)
            <==> Broken(capacity, run[..n], i, n) || Breaks(After(capacity, run[..n]), run[n])
  {
    hide After, Breaks;
    var n := |run| - 1;
    forall k | i <= k < n ensures run[..n][..k] == run[..k] && run[..n][k] == run[k] {
    }
  }

  lemma TagStep(b: Bus, capacity: nat, e: Event)
    requires b.turn.Some? ==> b.turn.value == b.turns
    ensures var t := Next(b, capacity, e);
            && (NextTag(t) == NextTag(b) || Earlier(NextTag(b), NextTag(t)))
            && (!Breaks(b, e) ==> NextTag(t) == NextTag(b) && (b.turn.Some? || Speaks(e) ==> t.turn.Some?))
            && (Breaks(b, e) && (b.turn.Some? || Speaks(e)) ==> Earlier(NextTag(b), NextTag(t)))
  {
  }

  /** Two utterances carry the same turn iff the agent has not spoken and the user has not come
      back between them; otherwise the later one's turn is later, so turns are never reused. */
  lemma TurnsSeparate(capacity: nat, run: seq<Event>, i: nat, j: nat)
    requires i < j < |run| && Speaks(run[i]) && Speaks(run[j])
    ensures TagAt(capacity, run, i) == TagAt(capacity, run, j) <==> !Broken(capacity, run, i, j)
    ensures Broken(capacity, run, i, j) ==> Earlier(TagAt(capacity, run, i), TagAt(capacity, run, j))
  {
    assert run[..j][..i] == run[..i] && run[..j][i] == run[i];
    TurnAfter(capacity, run[..j], i);
    forall k | i <= k < j ensures run[..j][..k] == run[..k] && run[..j][k] == run[k] {
    }
  }
}
