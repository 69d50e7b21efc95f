/** Newline-delimited JSON over a byte stream that arrives in arbitrary pieces. */
module Framing {
  import opened Options
  import opened JsonText

  const RECV_SIZE := 65536
  const MIN_FRAME_CAP := 1024
  const NEWLINE: Byte := 10

  function Concat(chunks: seq<seq<Byte>>): seq<Byte> {
    if chunks == [] then [] else Concat(chunks[..|chunks| - 1]) + chunks[|chunks| - 1]
  }

  /** What a stream holds after its last newline. */
  function Tail(s: seq<Byte>): (t: seq<Byte>)
    ensures |t| <= |s|
  {
    if s == [] || s[|s| - 1] == NEWLINE then [] else Tail(s[..|s| - 1]) + [s[|s| - 1]]
  }

  lemma {:induction false} TailAfterText(done: seq<Byte>, text: seq<Byte>)
    requires NEWLINE !in text
    ensures Tail(done + text) == Tail(done) + text
  {
    if text == [] {
      assert done + text == done;
    } else {
      var init := text[..|text| - 1];
      TailAfterText(done, init);
      assert (done + text)[..|done + text| - 1] == done + init;
    }
  }

  lemma {:induction false} TailIsWithin(done: seq<Byte>, chunk: seq<Byte>)
    requires NEWLINE in chunk
    ensures |Tail(done + chunk)| < |chunk|
  {
    var init := chunk[..|chunk| - 1];
    assert (done + chunk)[..|done + chunk| - 1] == done + init;
    if chunk[|chunk| - 1] != NEWLINE {
      assert chunk == init + [chunk[|chunk| - 1]];
      TailIsWithin(done, init);
    }
  }

  predicate IsSpace(b: Byte) {
    b == 0x20 || 0x09 <= b <= 0x0d
  }

  /** `bytes.strip()`. */
  function Strip(s: seq<Byte>): seq<Byte> {
    if s == [] then []
    else if IsSpace(s[0]) then Strip(s[1..])
    else if IsSpace(s[|s| - 1]) then Strip(s[..|s| - 1])
    else s
  }

  predicate Blank(b: Byte) {
    b in {9, 10, 11, 12, 13, 32}
  }

  /** Stripping takes blanks off both ends, all of them, and nothing else. */
  lemma {:induction false} StripTakesBlanks(s: seq<Byte>) returns (a: nat, b: nat)
    ensures a <= b <= |s| && Strip(s) == s[a..b]
    ensures forall k :: 0 <= k < a || b <= k < |s| ==> Blank(s[k])
    ensures a < b ==> !Blank(s[a]) && !Blank(s[b - 1])
  {
    if s == [] {
      return 0, 0;
    } else if Blank(s[0]) {
      a, b := StripTakesBlanks(s[1..]);
      assert s[1..][a..b] == s[a + 1..b + 1];
      forall k | 0 < k <= a || b < k < |s| ensures Blank(s[k]) {
        assert s[k] == s[1..][k - 1];
      }
      a, b := a + 1, b + 1;
    } else if Blank(s[|s| - 1]) {
      a, b := StripTakesBlanks(s[..|s| - 1]);
      assert s[..|s| - 1][a..b] == s[a..b];
    } else {
      return 0, |s|;
    }
  }

  /** A line of a stream, from `i` up to the newline at `j`. */
  ghost predicate LineAt(s: seq<Byte>, i: int, j: int) {
    && 0 <= i <= j < |s| && s[j] == 10 && (i == 0 || s[i - 1] == 10)
    && forall k :: i <= k < j ==> s[k] != 10
  }

  lemma {:induction false} TailStarts(s: seq<Byte>)
    ensures var i := |s| - |Tail(s)|;
            && Tail(s) == s[i..] && NEWLINE !in Tail(s) && (i == 0 || s[i - 1] == NEWLINE)
  {
    if s != [] && s[|s| - 1] != NEWLINE {
      TailStarts(s[..|s| - 1]);
    }
  }

  function EncodeFrame(m: Json): seq<Byte> {
    Encode(m) + [NEWLINE]
  }

  function Stream(ms: seq<Json>): seq<Byte> {
    if ms == [] then [] else Stream(ms[..|ms| - 1]) + EncodeFrame(ms[|ms| - 1])
  }

  /** Where the first newline is, or the length when there is none. */
  method FindNewline(s: seq<Byte>) returns (i: nat)
    ensures i <= |s| && NEWLINE !in s[..i]
    ensures i < |s| ==> s[i] == NEWLINE
    ensures i == |s| <==> NEWLINE !in s
  {
    i := 0;
    while i < |s| && s[i] != NEWLINE
      invariant i <= |s| && forall k :: 0 <= k < i ==> s[k] != NEWLINE
    {
      i := i + 1;
    }
  }

  /** The peer server's frame loop. `decode` stands for UTF-8 plus `json.loads`, `accepts`
      for the type and token gate. */
  class PeerServer {
    const maxFrame: nat
    const decode: seq<Byte> -> Option<Json>
    const accepts: Json -> bool

    constructor (maxFrame: int, decode: seq<Byte> -> Option<Json>, accepts: Json -> bool)
      ensures this.maxFrame == if maxFrame < 1024 then 1024 else maxFrame
      ensures this.decode == decode && this.accepts == accepts
    {
      this.maxFrame := if maxFrame < MIN_FRAME_CAP then MIN_FRAME_CAP else maxFrame;
      this.decode := decode;
      this.accepts := accepts;
    }

    /** What one line leads to: nothing, or one dispatched message. */
    function Handle(line: seq<Byte>): seq<Json> {
      var l := Strip(line);
      if l == [] || |l| > maxFrame || decode(l).None? || !accepts(decode(l).value) then []
      else [decode(l).value]
    }

    /** The messages of a stream, read with no notion of chunks: one per terminated line. */
    function Messages(s: seq<Byte>): seq<Json> {
      if s == [] then []
      else
        var init := s[..|s| - 1];
        if s[|s| - 1] == NEWLINE then Messages(init) + Handle(Tail(init)) else Messages(init)
    }

    /** What a line has to be to deliver a message: within the cap once stripped, readable, and
        accepted by the type and token gate. */
    ghost predicate Delivers(s: seq<Byte>, i: int, j: int, m: Json) {
      && LineAt(s, i, j)
      && var line := Strip(s[i..j]);
         0 < |line| <= maxFrame && decode(line) == Some(m) && accepts(m)
    }

    lemma LinesOneMore(s: seq<Byte>, i: int, j: int, m: Json)
      requires s != []
      ensures j < |s| - 1 ==> (Delivers(s, i, j, m) <==> Delivers(s[..|s| - 1], i, j, m))
      ensures Delivers(s, i, |s| - 1, m) ==> s[|s| - 1] == NEWLINE && Handle(Tail(s[..|s| - 1])) == [m]
    {
      hide Tail, Strip;
      var init := s[..|s| - 1];
      if 0 <= i <= j < |init| {
        assert s[i..j] == init[i..j];
      }
      if LineAt(s, i, |s| - 1) {
        LastLineIsTail(s, i);
      }
    }

    lemma LastLineIsTail(s: seq<Byte>, i: int)
      requires s != [] && LineAt(s, i, |s| - 1)
      ensures s[i..|s| - 1] == Tail(s[..|s| - 1])
    {
      hide Tail;
      var init := s[..|s| - 1];
      var t := |init| - |Tail(init)|;
      TailStarts(init);
      assert t == 0 || s[t - 1] == 10;
      forall k | t <= k < |init| ensures s[k] != 10 {
        assert s[k] == Tail(init)[k - t];
      }
      assert i == t;
    }

    lemma LastLineDelivers(s: seq<Byte>, m: Json)
      requires s != [] && s[|s| - 1] == NEWLINE && m in Handle(Tail(s[..|s| - 1]))
      ensures Delivers(s, |s| - 1 - |Tail(s[..|s| - 1])|, |s| - 1, m)
    {
      hide Tail, Strip;
      var init := s[..|s| - 1];
      TailStarts(init);
      var i := |init| - |Tail(init)|;
      assert s[i..|s| - 1] == Tail(init);
      assert forall k :: i <= k < |init| ==> s[k] == Tail(init)[k - i];
    }

    /** A message is delivered exactly when some line of the stream delivers it. */
    lemma {:induction false} MessagesAre(s: seq<Byte>)
      ensures forall m :: m in Messages(s) <==> exists i, j :: Delivers(s, i, j, m)
    {
      hide Delivers, Handle;
      if s == [] {
        forall i, j, m ensures !Delivers(s, i, j, m) {
          NothingDelivers(i, j, m);
        }
      } else {
        var init := s[..|s| - 1];
        MessagesAre(init);
        forall m ensures m in Messages(s) <==> exists i, j :: Delivers(s, i, j, m) {
          forall i, j ensures Delivers(s, i, j, m) ==> j < |s| {
            DeliversWithin(s, i, j, m);
          }
          forall i, j { LinesOneMore(s, i, j, m); }
          if m in Messages(init) {
            var i, j :| Delivers(init, i, j, m);
            DeliversWithin(init, i, j, m);
            assert Delivers(s, i, j, m);
          } else if m in Messages(s) {
            LastLineDelivers(s, m);
          }
        }
      }
    }

    lemma NothingDelivers(i: int, j: int, m: Json)
      ensures !Delivers([], i, j, m)
    {
    }

    lemma DeliversWithin(s: seq<Byte>, i: int, j: int, m: Json)
      ensures Delivers(s, i, j, m) ==> 0 <= i <= j < |s|
    {
    }

    lemma {:induction false} NoMessageWithoutNewline(done: seq<Byte>, text: seq<Byte>)
      requires NEWLINE !in text
      ensures Messages(done + text) == Messages(done)
    {
      if text == [] {
        assert done + text == done;
      } else {
        NoMessageWithoutNewline(done, text[..|text| - 1]);
        assert (done + text)[..|done + text| - 1] == done + text[..|text| - 1];
      }
    }

    lemma OneLineOneHandling(done: seq<Byte>, line: seq<Byte>)
      requires NEWLINE !in line && Tail(done) == []
      ensures Messages(done + line + [NEWLINE]) == Messages(done) + Handle(line)
      ensures Tail(done + line + [NEWLINE]) == []
    {
      NoMessageWithoutNewline(done, line);
      TailAfterText(done, line);
      var s := done + line + [NEWLINE];
      assert s[..|s| - 1] == done + line;
      assert Tail(done + line) == line;
    }

    /** The frame under way after `k` chunks is over the cap and the last chunk did not end one. */
    predicate Overrun(chunks: seq<seq<Byte>>, k: nat)
      requires 0 < k <= |chunks|
    {
      NEWLINE !in chunks[k - 1] && |Tail(Concat(chunks[..k]))| > maxFrame
    }

    /** The first `k` chunks were taken without reaching the end or overrunning. */
    ghost predicate Quiet(chunks: seq<seq<Byte>>, k: int) {
      && 0 <= k <= |chunks|
      && (forall j :: 0 <= j < k ==> chunks[j] != [])
      && forall j :: 0 < j <= k ==> !Overrun(chunks, j)
    }

    function BufferBound(): nat {
      (if maxFrame < 65536 then 65536 else maxFrame) + 65536
    }

    /** A buffer that did not overrun has room for one more chunk: either it is within the cap,
        or what follows its last newline is shorter than the chunk that brought it. */
    lemma QuietLeavesRoom(chunks: seq<seq<Byte>>, k: nat)
      requires k <= |chunks| && (k > 0 ==> |chunks[k - 1]| <= RECV_SIZE && !Overrun(chunks, k))
      ensures |Tail(Concat(chunks[..k]))| + RECV_SIZE <= BufferBound()
    {
      if k > 0 && NEWLINE in chunks[k - 1] {
        assert chunks[..k][..k - 1] == chunks[..k - 1];
        TailIsWithin(Concat(chunks[..k - 1]), chunks[k - 1]);
      }
    }

    lemma NothingYet()
      ensures Messages([]) == [] && Tail([]) == [] && Concat([]) == []
    {
    }

    /** Serves one connection until it ends or a frame overruns the cap. `chunks` are the
        successive `recv` results, an empty one meaning that the peer closed. What was
        dispatched depends on the bytes taken, not on how they were cut into chunks. The last
        clause bounds the buffer at its fullest, right after each `recv`. */
    method HandleClient(chunks: seq<seq<Byte>>)
      returns (dispatched: seq<Json>, taken: nat, closed: bool)
      requires forall i :: 0 <= i < |chunks| ==> |chunks[i]| <= RECV_SIZE
      ensures taken <= |chunks|
      ensures dispatched == Messages(Concat(chunks[..taken]))
      ensures forall m :: m in dispatched <==> exists i, j :: Delivers(Concat(chunks[..taken]), i, j, m)
      ensures !closed ==> taken == |chunks| || chunks[taken] == []
      ensures closed ==> taken > 0 && Overrun(chunks, taken)
      ensures Quiet(chunks, if closed then taken - 1 else taken)
      ensures forall k :: 0 <= k < taken ==> |Tail(Concat(chunks[..k]))| + |chunks[k]| <= BufferBound()
    {
      hide Messages, Delivers, Tail, Overrun, Concat, BufferBound;
      NothingYet();
      assert chunks[..0] == [];
      var buf: seq<Byte> := [];
      ghost var done: seq<Byte> := [];
      dispatched, taken, closed := [], 0, false;
      while taken < |chunks| && chunks[taken] != []
        invariant taken <= |chunks| && NEWLINE !in buf && buf == Tail(Concat(chunks[..taken]))
        invariant forall k :: 0 <= k < taken ==> |Tail(Concat(chunks[..k]))| + |chunks[k]| <= BufferBound()
        invariant Concat(chunks[..taken]) == done + buf && Tail(done) == []
        invariant dispatched == Messages(done)
        invariant Quiet(chunks, taken)
      {
        var data := chunks[taken];
        ghost var before := buf;
        QuietLeavesRoom(chunks, taken);
        buf := buf + data;
        taken := taken + 1;
        AppendChunk(chunks, taken, done, before);
        if |buf| > maxFrame && NEWLINE !in buf {
          NoMessageWithoutNewline(done, buf);
          MessagesAre(Concat(chunks[..taken]));
          closed := true;
          return;
        }
        var msgs;
        msgs, buf, done := DrainLines(buf, done);
        TailAfterText(done, buf);
        dispatched := dispatched + msgs;
      }
      NoMessageWithoutNewline(done, buf);
      MessagesAre(Concat(chunks[..taken]));
    }

    /** The inner loop: takes every terminated line off the front of the buffer. */
    method DrainLines(received: seq<Byte>, ghost before: seq<Byte>)
      returns (msgs: seq<Json>, buf: seq<Byte>, ghost done: seq<Byte>)
      requires Tail(before) == []
      ensures before + received == done + buf && Tail(done) == [] && NEWLINE !in buf
      ensures Messages(done) == Messages(before) + msgs
    {
      buf, msgs, done := received, [], before;
      var i := FindNewline(buf);
      while i < |buf|
        invariant 0 <= i <= |buf| && NEWLINE !in buf[..i] && (i < |buf| ==> buf[i] == NEWLINE)
        invariant before + received == done + buf && Tail(done) == []
        invariant Messages(done) == Messages(before) + msgs
        decreases |buf|
      {
        var line := buf[..i];
        TakeLine(done, line, buf, i);
        done := done + line + [NEWLINE];
        buf := buf[i + 1..];
        i := FindNewline(buf);
        var handled := HandleLine(line);
        msgs := msgs + handled;
      }
      assert buf[..i] == buf;
    }

    /** The body of the inner loop, branch by branch. */
    method HandleLine(raw: seq<Byte>) returns (msgs: seq<Json>)
      ensures msgs == Handle(raw)
      ensures forall m :: m in msgs <==>
                0 < |Strip(raw)| <= maxFrame && decode(Strip(raw)) == Some(m) && accepts(m)
    {
      var line := Strip(raw);
      if line == [] {
        return [];
      }
      if |line| > maxFrame {
        return [];
      }
      var msg := decode(line);
      if msg.None? || !accepts(msg.value) {
        return [];
      }
      return [msg.value];
    }

    lemma TakeLine(done: seq<Byte>, line: seq<Byte>, buf: seq<Byte>, i: nat)
      requires i < |buf| && line == buf[..i] && NEWLINE !in line && buf[i] == NEWLINE && Tail(done) == []
      ensures done + buf == done + line + [NEWLINE] + buf[i + 1..]
      ensures Messages(done + line + [NEWLINE]) == Messages(done) + Handle(line)
      ensures Tail(done + line + [NEWLINE]) == []
    {
      hide Messages, Handle, Tail;
      OneLineOneHandling(done, line);
      assert buf == line + [NEWLINE] + buf[i + 1..];
    }

    /** What the `k`th chunk does to the buffer: it overruns the cap exactly when the buffer,
        with no newline in it, has grown past the cap. */
    lemma AppendChunk(chunks: seq<seq<Byte>>, k: nat, done: seq<Byte>, buf: seq<Byte>)
      requires 0 < k <= |chunks| && Concat(chunks[..k - 1]) == done + buf
      requires NEWLINE !in buf && Tail(done) == []
      ensures Concat(chunks[..k]) == done + (buf + chunks[k - 1])
      ensures NEWLINE in buf + chunks[k - 1] <==> NEWLINE in chunks[k - 1]
      ensures Overrun(chunks, k) <==> NEWLINE !in chunks[k - 1] && |buf + chunks[k - 1]| > maxFrame
    {
      assert chunks[..k][..k - 1] == chunks[..k - 1];
      assert done + buf + chunks[k - 1] == done + (buf + chunks[k - 1]);
      if NEWLINE !in chunks[k - 1] {
        TailAfterText(done, buf + chunks[k - 1]);
      }
    }

    /** A message this server takes: well-formed, accepted, and read back by `decode`. */
    predicate Speaks(m: Json) {
      m.Obj? && WellFormed(m) && accepts(m) && decode(Encode(m)) == Some(m)
    }

    function Fitting(ms: seq<Json>): seq<Json> {
      if ms == [] then []
      else Fitting(ms[..|ms| - 1]) + if |Encode(ms[|ms| - 1])| <= maxFrame then [ms[|ms| - 1]] else []
    }

    /** Every message fits the frame cap. */
    ghost predicate AllFit(ms: seq<Json>) {
      forall i :: 0 <= i < |ms| ==> |Encode(ms[i])| <= maxFrame
    }

    lemma AllFitInit(ms: seq<Json>)
      requires ms != []
      ensures AllFit(ms) <==> AllFit(ms[..|ms| - 1]) && |Encode(ms[|ms| - 1])| <= maxFrame
    {
      hide Encode;
      assert ms == ms[..|ms| - 1] + [ms[|ms| - 1]];
    }

    lemma EncodingIsOneCleanLine(m: Json)
      requires Speaks(m)
      ensures NEWLINE !in Encode(m)
      ensures Handle(Encode(m)) == if |Encode(m)| <= maxFrame then [m] else []
    {
      EncodingIsPrintable(m);
    }

    /** A stream of encoded messages holds exactly the messages that fit the cap, in order. */
    lemma {:induction false} StreamYieldsMessages(ms: seq<Json>)
      requires forall i :: 0 <= i < |ms| ==> Speaks(ms[i])
      ensures Messages(Stream(ms)) == Fitting(ms) && Tail(Stream(ms)) == []
    {
      if ms != [] {
        var init, m := ms[..|ms| - 1], ms[|ms| - 1];
        StreamYieldsMessages(init);
        EncodingIsOneCleanLine(m);
        OneLineOneHandling(Stream(init), Encode(m));
        assert Stream(ms) == Stream(init) + Encode(m) + [NEWLINE];
      }
    }

    lemma {:induction false} PrefixTailFits(ms: seq<Json>, p: seq<Byte>)
      requires AllFit(ms) && forall i :: 0 <= i < |ms| ==> Speaks(ms[i])
      requires p <= Stream(ms)
      ensures |Tail(p)| <= maxFrame
    {
      if ms != [] {
        var init, m := ms[..|ms| - 1], ms[|ms| - 1];
        if |p| <= |Stream(init)| {
          assert p == Stream(ms)[..|p|] == Stream(init)[..|p|];
          PrefixTailFits(init, p);
        } else {
          StreamYieldsMessages(init);
          EncodingIsOneCleanLine(m);
          assert Stream(ms) == Stream(init) + (Encode(m) + [NEWLINE]);
          TailWithinLine(Stream(init), Encode(m), p);
        }
      }
    }

    /** The round trip under fragmentation. Whatever the chunks, the stream holds the messages
        that fit; when all of them fit, no chunk boundary makes the server hang up. */
    lemma {:induction false} RoundTripUnderFragmentation(ms: seq<Json>, chunks: seq<seq<Byte>>)
      requires forall i :: 0 <= i < |ms| ==> Speaks(ms[i])
      requires Concat(chunks) == Stream(ms)
      ensures Messages(Concat(chunks)) == Fitting(ms)
      ensures AllFit(ms) ==> forall k :: 0 < k <= |chunks| ==> !Overrun(chunks, k)
    {
      StreamYieldsMessages(ms);
      if AllFit(ms) {
        forall k | 0 < k <= |chunks| ensures !Overrun(chunks, k) {
          ConcatPrefix(chunks, k);
          PrefixTailFits(ms, Concat(chunks[..k]));
        }
      }
    }

    lemma NothingToFit()
      ensures AllFit([])
    {
    }

    lemma {:induction false} FittingIsAllIff(ms: seq<Json>)
      ensures |Fitting(ms)| <= |ms|
      ensures Fitting(ms) == ms <==> AllFit(ms)
    {
      hide Encode, AllFit;
      if ms == [] {
        NothingToFit();
      } else {
        var init := ms[..|ms| - 1];
        FittingIsAllIff(init);
        AllFitInit(ms);
        assert ms == init + [ms[|ms| - 1]];
        if Fitting(ms) == ms {
          assert Fitting(init) == init;
        }
      }
    }

    /** A part of the stream holds part of its messages. */
    lemma {:induction false} FewerBytesFewerMessages(p: seq<Byte>, s: seq<Byte>)
      requires p <= s
      ensures |Messages(p)| <= |Messages(s)|
    {
      if p == s {
      } else {
        FewerBytesFewerMessages(p, s[..|s| - 1]);
      }
    }

    /** The round trip for the loop itself: every message is dispatched, once and in order,
        exactly when every one of them fits the cap. */
    method Receive(ms: seq<Json>, chunks: seq<seq<Byte>>) returns (dispatched: seq<Json>)
      requires forall i :: 0 <= i < |ms| ==> Speaks(ms[i])
      requires forall i :: 0 <= i < |chunks| ==> 0 < |chunks[i]| <= RECV_SIZE
      requires Concat(chunks) == Stream(ms)
      ensures dispatched == ms <==> AllFit(ms)
    {
      hide AllFit, Speaks, Messages, Overrun, Concat, Stream, Fitting;
      RoundTripUnderFragmentation(ms, chunks);
      FittingIsAllIff(ms);
      var taken, closed;
      dispatched, taken, closed := HandleClient(chunks);
      assert chunks[..|chunks|] == chunks;
      ConcatPrefix(chunks, taken);
      FewerBytesFewerMessages(Concat(chunks[..taken]), Concat(chunks));
      if dispatched == ms {
        OnlyShortOnesAreLost(ms);
      }
    }

    lemma {:induction false} OnlyShortOnesAreLost(ms: seq<Json>)
      ensures |Fitting(ms)| <= |ms| && (|Fitting(ms)| == |ms| ==> Fitting(ms) == ms)
    {
      hide Encode;
      if ms != [] {
        OnlyShortOnesAreLost(ms[..|ms| - 1]);
        assert ms == ms[..|ms| - 1] + [ms[|ms| - 1]];
      }
    }
  }

  /** A message as a reader needs it: one object that reads back, of which no part reads. */
  ghost predicate Readable(decode: seq<Byte> -> Option<Json>, m: Json) {
    && m.Obj? && WellFormed(m) && decode(Encode(m)) == Some(m)
    && forall p :: p < Encode(m) ==> decode(p).None?
  }

  /** The chunks up to number `k` stop short of the whole of `n` bytes, and the next completes them. */
  predicate CompletesAfter(chunks: seq<seq<Byte>>, k: int, n: nat) {
    0 <= k < |chunks| && |Concat(chunks[..k])| < n <= |Concat(chunks[..k + 1])|
  }

  /** How a network may cut a frame into the results of `recv`. */
  ghost predicate Cuts(chunks: seq<seq<Byte>>, frame: seq<Byte>) {
    Concat(chunks) == frame && forall i :: 0 <= i < |chunks| ==> 0 < |chunks[i]| <= RECV_SIZE
  }

  /** `short` of `n` bytes may have come before the chunk that completes them. */
  predicate Cut(short: int, n: nat) {
    0 <= short < n <= short + RECV_SIZE
  }

  ghost predicate CutsShort(chunks: seq<seq<Byte>>, frame: seq<Byte>, k: int, short: int, n: nat) {
    Cuts(chunks, frame) && CompletesAfter(chunks, k, n) && |Concat(chunks[..k])| == short
  }

  /** The numbers that `Cut` admits are exactly those that some network produces. */
  lemma CutIff(frame: seq<Byte>, n: nat, short: int)
    requires n <= |frame|
    ensures Cut(short, n) <==> exists chunks, k :: CutsShort(chunks, frame, k, short, n)
  {
    if Cut(short, n) {
      var chunks := CutAt(frame, short, n);
      assert CutsShort(chunks, frame, short, short, n);
    }
    forall chunks, k | CutsShort(chunks, frame, k, short, n) ensures Cut(short, n) {
      assert chunks[..k + 1][..k] == chunks[..k];
    }
  }

  /** Single bytes, one chunk that completes the `n` bytes, and single bytes again. */
  lemma CutAt(frame: seq<Byte>, short: nat, n: nat) returns (chunks: seq<seq<Byte>>)
    requires n <= |frame| && Cut(short, n)
    ensures CutsShort(chunks, frame, short, short, n)
  {
    var head, rest := Bytewise(frame[..short]), Bytewise(frame[n..]);
    chunks := head + [frame[short..n]] + rest;
    BytewiseIs(frame[..short]);
    BytewiseIs(frame[n..]);
    assert chunks[..short] == head;
    assert chunks[..short + 1] == head + [frame[short..n]];
    assert chunks[..short + 1][..short] == head;
    ConcatAppends(head + [frame[short..n]], rest);
    assert frame == frame[..short] + frame[short..n] + frame[n..];
  }

  function Bytewise(s: seq<Byte>): seq<seq<Byte>> {
    seq(|s|, i requires 0 <= i < |s| => [s[i]])
  }

  lemma {:induction false} BytewiseIs(s: seq<Byte>)
    ensures Concat(Bytewise(s)) == s
  {
    if s != [] {
      BytewiseIs(s[..|s| - 1]);
      assert Bytewise(s)[..|s| - 1] == Bytewise(s[..|s| - 1]);
    }
  }

  lemma {:induction false} ConcatAppends(a: seq<seq<Byte>>, b: seq<seq<Byte>>)
    ensures Concat(a + b) == Concat(a) + Concat(b)
  {
    if b == [] {
      assert a + b == a;
    } else {
      ConcatAppends(a, b[..|b| - 1]);
      assert (a + b)[..|a + b| - 1] == a + b[..|b| - 1];
    }
  }

  /** Whether a reply of `n` bytes gets through a cap, for a network that may cut it anywhere:
      always exactly when it exceeds the cap by at most a byte, never exactly when it does
      so by more than a whole chunk. */
  lemma ArrivalIff(cap: nat, n: nat)
    requires n > 0
    ensures (forall short :: Cut(short, n) ==> short <= cap) <==> n <= cap + 1
    ensures (forall short :: Cut(short, n) ==> short > cap) <==> n > cap + 65536
  {
    assert Cut(n - 1, n);
    assert Cut(if n <= RECV_SIZE then 0 else n - RECV_SIZE, n);
  }

  /** The requesting side: one request, one reply on a connection of its own. */
  class PeerClient {
    const maxFrame: nat
    const decode: seq<Byte> -> Option<Json>

    constructor (maxFrame: int, decode: seq<Byte> -> Option<Json>)
      ensures this.maxFrame == if maxFrame < 1024 then 1024 else maxFrame
      ensures this.decode == decode
    {
      this.maxFrame := if maxFrame < MIN_FRAME_CAP then MIN_FRAME_CAP else maxFrame;
      this.decode := decode;
    }

    /** Reading stops here: a newline has come, or the cap is passed. */
    predicate Enough(chunks: seq<seq<Byte>>, k: nat)
      requires k <= |chunks|
    {
      NEWLINE in Concat(chunks[..k]) || |Concat(chunks[..k])| > maxFrame
    }

    lemma EnoughIff(chunks: seq<seq<Byte>>, k: nat)
      requires k <= |chunks|
      ensures Enough(chunks, k) <==> 10 in Concat(chunks[..k]) || |Concat(chunks[..k])| >= maxFrame + 1
    {
    }

    /** The successive `recv` results of one reply; an empty one is the peer closing. */
    method ReadReply(chunks: seq<seq<Byte>>) returns (reply: Option<Json>, ghost taken: nat)
      ensures taken <= |chunks| && forall k :: 0 <= k < taken ==> !Enough(chunks, k) && chunks[k] != []
      ensures taken == |chunks| || chunks[taken] == [] || Enough(chunks, taken)
      ensures var line := Strip(FirstLine(Concat(chunks[..taken])));
              reply == if line == [] then None else decode(line)
    {
      var buf, i := [], 0;
      while i < |chunks| && NEWLINE !in buf && |buf| <= maxFrame && chunks[i] != []
        invariant 0 <= i <= |chunks| && buf == Concat(chunks[..i])
        invariant forall k :: 0 <= k < i ==> !Enough(chunks, k) && chunks[k] != []
      {
        assert chunks[..i + 1][..i] == chunks[..i];
        buf := buf + chunks[i];
        i := i + 1;
      }
      taken := i;
      var end := FindNewline(buf);
      FirstLineIs(buf, end);
      var line := Strip(buf[..end]);
      reply := if line == [] then None else decode(line);
    }

    /** A reply arrives exactly when what had been read before the chunk that completes it did
        not exceed the cap: always if it exceeds the cap by at most a byte, never if it does so
        by more than a whole chunk. */
    method Request(m: Json, chunks: seq<seq<Byte>>, ghost k: nat) returns (reply: Option<Json>)
      requires Readable(decode, m) && Cuts(chunks, EncodeFrame(m))
      requires CompletesAfter(chunks, k, |Encode(m)|)
      ensures reply == if |Concat(chunks[..k])| <= maxFrame then Some(m) else None
      ensures |Encode(m)| <= maxFrame + 1 ==> reply == Some(m)
      ensures |Encode(m)| > maxFrame + RECV_SIZE ==> reply == None
    {
      ghost var taken;
      reply, taken := ReadReply(chunks);
      EncodingIsPrintable(m);
      assert chunks[..k + 1][..k] == chunks[..k];
      ReplyTaken(m, chunks, k, taken);
    }

    lemma NotEnoughYet(m: Json, chunks: seq<seq<Byte>>, j: nat, k: nat)
      requires j <= k <= |chunks| && Concat(chunks) == EncodeFrame(m) && NEWLINE !in Encode(m)
      requires |Concat(chunks[..k])| < |Encode(m)| && |Concat(chunks[..k])| <= maxFrame
      ensures !Enough(chunks, j)
    {
      ConcatGrows(chunks, j, k);
      ConcatPrefix(chunks, j);
      var got := Concat(chunks[..j]);
      assert got == Encode(m)[..|got|];
    }

    lemma ReplyTaken(m: Json, chunks: seq<seq<Byte>>, k: nat, taken: nat)
      requires Readable(decode, m) && Concat(chunks) == EncodeFrame(m) && NEWLINE !in Encode(m)
      requires forall i :: 0 <= i < |chunks| ==> chunks[i] != []
      requires CompletesAfter(chunks, k, |Encode(m)|)
      requires taken <= |chunks| && forall j :: 0 <= j < taken ==> !Enough(chunks, j)
      requires taken == |chunks| || Enough(chunks, taken)
      ensures var line := Strip(FirstLine(Concat(chunks[..taken])));
              line != [] && decode(line) == if |Concat(chunks[..k])| <= maxFrame then Some(m) else None
    {
      var n, got := |Encode(m)|, Concat(chunks[..taken]);
      ConcatPrefix(chunks, taken);
      assert chunks[..|chunks|] == chunks;
      if |Concat(chunks[..k])| <= maxFrame {
        if taken <= k {
          NotEnoughYet(m, chunks, taken, k);
        }
        ConcatGrows(chunks, k + 1, taken);
        assert FirstLine(got) == Encode(m) by {
          FirstLineOf(Encode(m), got);
        }
        ObjectIsStripped(m);
      } else {
        ConcatPrefix(chunks, k);
        assert NEWLINE !in Concat(chunks[..k]);
        assert k > 0 by {
          assert Concat(chunks[..0]) == [];
        }
        assert Enough(chunks, k) && taken <= k;
        ConcatGrows(chunks, taken, k);
        assert taken > 0 by {
          assert Concat(chunks[..0]) == [];
        }
        assert got != [] by {
          assert chunks[..1][..0] == [] && Concat(chunks[..1]) == chunks[0];
          ConcatGrows(chunks, 1, taken);
        }
        assert got < Encode(m);
        assert NEWLINE !in got;
        FirstLineIs(got, |got|);
        assert got[..|got|] == got;
        PartIsStripped(m, got);
      }
    }
  }

  /** `buf.split(b"\n", 1)[0]`. */
  function FirstLine(s: seq<Byte>): seq<Byte> {
    if s == [] || s[0] == NEWLINE then [] else [s[0]] + FirstLine(s[1..])
  }

  lemma {:induction false} FirstLineIs(s: seq<Byte>, i: nat)
    requires i <= |s| && NEWLINE !in s[..i] && (i < |s| ==> s[i] == NEWLINE)
    ensures FirstLine(s) == s[..i]
  {
    if i > 0 {
      assert s[..i][0] == s[0];
      assert s[1..][..i - 1] == s[..i][1..];
      FirstLineIs(s[1..], i - 1);
    }
  }

  lemma FirstLineOf(line: seq<Byte>, s: seq<Byte>)
    requires NEWLINE !in line && |line| <= |s| && s <= line + [NEWLINE]
    ensures FirstLine(s) == line
  {
    assert s[..|line|] == line;
    FirstLineIs(s, |line|);
  }

  lemma {:induction false} ConcatGrows(chunks: seq<seq<Byte>>, j: nat, k: nat)
    requires j <= k <= |chunks|
    ensures Concat(chunks[..j]) <= Concat(chunks[..k])
  {
    assert chunks[..k][..j] == chunks[..j];
    ConcatPrefix(chunks[..k], j);
  }

  /** An encoded object starts with a brace, so stripping a part of it takes spaces off its end. */
  lemma PartIsStripped(m: Json, part: seq<Byte>)
    requires m.Obj? && part != [] && part < Encode(m)
    ensures Strip(part) != [] && Strip(part) < Encode(m)
  {
    assert part[0] == Encode(m)[0];
    StripsEnd(part);
  }

  lemma ObjectIsStripped(m: Json)
    requires m.Obj?
    ensures Encode(m) != [] && Strip(Encode(m)) == Encode(m)
  {
  }

  lemma {:induction false} StripsEnd(s: seq<Byte>)
    requires s != [] && !IsSpace(s[0])
    ensures Strip(s) != [] && Strip(s) <= s
  {
    if IsSpace(s[|s| - 1]) {
      StripsEnd(s[..|s| - 1]);
    }
  }

  lemma TailWithinLine(head: seq<Byte>, line: seq<Byte>, p: seq<Byte>)
    requires NEWLINE !in line && Tail(head) == []
    requires p <= head + (line + [NEWLINE]) && |p| > |head|
    ensures |Tail(p)| <= |line|
  {
    if |p| == |head| + |line| + 1 {
      assert p[|p| - 1] == NEWLINE;
    } else {
      var q := line[..|p| - |head|];
      assert p == head + q;
      TailAfterText(head, q);
    }
  }

  lemma {:induction false} ConcatPrefix(chunks: seq<seq<Byte>>, k: nat)
    requires k <= |chunks|
    ensures Concat(chunks[..k]) <= Concat(chunks)
  {
    if k == |chunks| {
      assert chunks[..k] == chunks;
    } else {
      ConcatPrefix(chunks[..|chunks| - 1], k);
      assert chunks[..|chunks| - 1][..k] == chunks[..k];
    }
  }
}
