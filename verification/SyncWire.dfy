/** A sync reply on the wire: how long it is, and when it is too long to arrive. */
module SyncWire {
  import opened Options
  import opened JsonText
  import opened FactSync
  import Framing

  const DEFAULT_FRAME_CAP := 1048576

  /** What surrounds the contents in a reply: the members before and after the list of facts,
      and the other members of each fact. */
  datatype Envelope = Envelope(before: seq<Member>, after: seq<Member>, rest: Row -> seq<Member>)

  function TextOf(s: string): Text {
    seq(|s|, i requires 0 <= i < |s| => s[i] as int)
  }

  function FactJson(env: Envelope, r: Row): Json {
    Obj([Member(TextOf("content"), Str(TextOf(r.content)))] + env.rest(r))
  }

  function Facts(env: Envelope, batch: seq<Row>): seq<Json> {
    seq(|batch|, i requires 0 <= i < |batch| => FactJson(env, batch[i]))
  }

  function ReplyJson(env: Envelope, batch: seq<Row>): Json {
    Obj(env.before + [Member(TextOf("facts"), Arr(Facts(env, batch)))] + env.after)
  }

  function ReplyLength(env: Envelope, batch: seq<Row>): nat {
    |Encode(ReplyJson(env, batch))|
  }

  /** One attempt to sync: `short` bytes of the reply had come before the chunk that completes it. */
  datatype Round = Round(env: Envelope, short: nat, clock: int -> int)

  /** `recv` returns at most its buffer size at a time. */
  predicate Possible(p: Puller, exporter: seq<Row>, r: Round) {
    Framing.Cut(r.short, ReplyLength(r.env, Export(exporter, p.watermark, EXPORT_LIMIT)))
  }

  /** A reply that does not arrive leaves store and watermark as they were. */
  function Attempted(p: Puller, exporter: seq<Row>, cap: nat, r: Round): Puller {
    if r.short <= cap then Synced(p, exporter, true, r.clock) else p
  }

  /** While rows are pending, an attempt moves the watermark however the network cuts the reply
      iff the encoded batch exceeds the frame cap by at most a byte, and moves nothing however it is cut iff the batch
      is longer than the cap by more than a whole chunk. */
  lemma AttemptAdvancesIff(p: Puller, exporter: seq<Row>, cap: nat, env: Envelope)
    requires Pending(exporter, p.watermark) != []
    ensures var n := ReplyLength(env, Export(exporter, p.watermark, EXPORT_LIMIT));
            && ((forall r: Round {:trigger Possible(p, exporter, r)} :: r.env == env && Possible(p, exporter, r) ==>
                   Attempted(p, exporter, cap, r).watermark != p.watermark)
                <==> n <= cap + 1)
            && ((forall r: Round {:trigger Possible(p, exporter, r)} :: r.env == env && Possible(p, exporter, r) ==>
                   Attempted(p, exporter, cap, r) == p)
                <==> n > cap + Framing.RECV_SIZE)
  {
    hide ReplyLength;
    var batch := Export(exporter, p.watermark, EXPORT_LIMIT);
    var n, last := ReplyLength(env, batch), batch[|batch| - 1];
    assert last in Pending(exporter, p.watermark);
    PendingMembers(exporter, p.watermark, last);
    assert forall r: Round :: Attempted(p, exporter, cap, r).watermark != p.watermark <==> r.short <= cap;
    ReplyIsNotEmpty(env, batch);
    var worst := Round(env, n - 1, _ => 0);
    var best := Round(env, if n <= Framing.RECV_SIZE then 0 else n - Framing.RECV_SIZE, _ => 0);
    assert Possible(p, exporter, worst) && Possible(p, exporter, best);
  }

  lemma ReplyIsNotEmpty(env: Envelope, batch: seq<Row>)
    ensures ReplyLength(env, batch) > 0
  {
  }

  /** The possible attempts are exactly those in which some network cuts the framed reply so
      that the reader sees `short` bytes of it before the chunk that completes it. */
  lemma PossibleIff(p: Puller, exporter: seq<Row>, r: Round)
    ensures var reply := ReplyJson(r.env, Export(exporter, p.watermark, EXPORT_LIMIT));
            Possible(p, exporter, r)
            <==> exists chunks, k ::
                   Framing.CutsShort(chunks, Framing.EncodeFrame(reply), k, r.short, |Encode(reply)|)
  {
    var reply := ReplyJson(r.env, Export(exporter, p.watermark, EXPORT_LIMIT));
    hide Encode;
    Framing.CutIff(Framing.EncodeFrame(reply), |Encode(reply)|, r.short);
    assert Possible(p, exporter, r) <==> Framing.Cut(r.short, |Encode(reply)|);
  }

  function AttemptedTimes(p: Puller, exporter: seq<Row>, cap: nat, rounds: seq<Round>): Puller {
    if rounds == [] then p
    else Attempted(AttemptedTimes(p, exporter, cap, rounds[..|rounds| - 1]), exporter, cap, rounds[|rounds| - 1])
  }

  function Clocks(rounds: seq<Round>): seq<int -> int> {
    seq(|rounds|, i requires 0 <= i < |rounds| => rounds[i].clock)
  }

  /** The attempts whose replies arrive, in order. */
  function Arriving(cap: nat, rounds: seq<Round>): seq<Round> {
    if rounds == [] then []
    else Arriving(cap, rounds[..|rounds| - 1])
         + if rounds[|rounds| - 1].short <= cap then [rounds[|rounds| - 1]] else []
  }

  lemma {:induction false} OnlyArrivingCount(p: Puller, exporter: seq<Row>, cap: nat, rounds: seq<Round>)
    ensures AttemptedTimes(p, exporter, cap, rounds) == SyncedTimes(p, exporter, Clocks(Arriving(cap, rounds)))
  {
    if rounds != [] {
      var init, last := rounds[..|rounds| - 1], rounds[|rounds| - 1];
      OnlyArrivingCount(p, exporter, cap, init);
      if last.short <= cap {
        var clocks := Clocks(Arriving(cap, rounds));
        assert clocks[..|clocks| - 1] == Clocks(Arriving(cap, init));
      } else {
        assert Arriving(cap, rounds) == Arriving(cap, init);
      }
    }
  }

  /** Repeated attempts bring everything once enough of them arrive. */
  lemma AttemptsConverge(p: Puller, exporter: seq<Row>, cap: nat, rounds: seq<Round>)
    requires DistinctStamps(exporter) && Covered(p, exporter)
    requires |Pending(exporter, p.watermark)| <= |Arriving(cap, rounds)| * EXPORT_LIMIT
    ensures var q := AttemptedTimes(p, exporter, cap, rounds);
            Export(exporter, q.watermark, EXPORT_LIMIT) == [] && forall r :: r in exporter ==> Settled(q, r)
  {
    OnlyArrivingCount(p, exporter, cap, rounds);
    RepeatedSyncsConverge(p, exporter, Clocks(Arriving(cap, rounds)));
  }

  // ---- an exporter whose first batch never arrives ----

  lemma {:induction false} WideTextIsSixfold(t: Text)
    requires forall i :: 0 <= i < |t| ==> 0x80 <= t[i] < 0x10000
    ensures |EscapeAll(t)| == 6 * |t|
  {
    if t != [] {
      WideTextIsSixfold(t[1..]);
    }
  }

  lemma {:induction false} ItemsAddUp(items: seq<Json>, least: nat)
    requires forall i :: 0 <= i < |items| ==> |Encode(items[i])| >= least
    ensures |EncodeItems(items)| >= least * |items|
  {
    if items != [] {
      ItemsAddUp(items[1..], least);
      assert least * |items| == least + least * |items[1..]|;
    }
  }

  lemma {:induction false} MemberCounts(members: seq<Member>, k: nat)
    requires k < |members|
    ensures |EncodeMembers(members)| >= |Encode(members[k].value)|
    decreases |members|
  {
    if k > 0 {
      MemberCounts(members[1..], k - 1);
    }
  }

  /** A full batch of contents at their limit, in a script outside ASCII. */
  function WideContent(): string {
    seq(CONTENT_LIMIT, _ => '\U{20AC}')
  }

  function WideRows(): seq<Row> {
    seq(EXPORT_LIMIT, i => Row(WideContent(), i))
  }

  lemma WideFactIsLong(env: Envelope, r: Row)
    requires r.content == WideContent()
    ensures |Encode(FactJson(env, r))| >= 6 * CONTENT_LIMIT
  {
    var text := TextOf(r.content);
    WideTextIsSixfold(text);
    var members := [Member(TextOf("content"), Str(text))] + env.rest(r);
    assert members[0].value == Str(text);
    MemberCounts(members, 0);
  }

  lemma WideReplyIsTooLong(env: Envelope)
    ensures ReplyLength(env, WideRows()) > DEFAULT_FRAME_CAP + Framing.RECV_SIZE
  {
    var facts := Facts(env, WideRows());
    forall i | 0 <= i < |facts| ensures |Encode(facts[i])| >= 6 * CONTENT_LIMIT {
      WideFactIsLong(env, WideRows()[i]);
    }
    ItemsAddUp(facts, 6 * CONTENT_LIMIT);
    var members := env.before + [Member(TextOf("facts"), Arr(facts))] + env.after;
    assert members[|env.before|].value == Arr(facts);
    MemberCounts(members, |env.before|);
  }

  /** Under the default cap such an exporter is never pulled from: its first batch is too long
      whatever else the reply holds, so no attempt moves anything and the next is the same. */
  lemma {:induction false} WideRowsNeverArrive(rounds: seq<Round>)
    requires forall i :: 0 <= i < |rounds| ==> Possible(Puller([], None), WideRows(), rounds[i])
    ensures AttemptedTimes(Puller([], None), WideRows(), DEFAULT_FRAME_CAP, rounds) == Puller([], None)
    ensures DistinctStamps(WideRows()) && Covered(Puller([], None), WideRows())
  {
    if rounds != [] {
      var last := rounds[|rounds| - 1];
      WideRowsNeverArrive(rounds[..|rounds| - 1]);
      AllAreAfterNothing(WideRows());
      DistinctArePending(WideRows(), None);
      assert Export(WideRows(), None, EXPORT_LIMIT) == WideRows();
      WideReplyIsTooLong(last.env);
      AttemptAdvancesIff(Puller([], None), WideRows(), DEFAULT_FRAME_CAP, last.env);
    }
  }
}
