/** Sharing Tier 2 facts between nodes: watermarked export, deduplicating import. */
module FactSync {
  import opened Options
  import opened Sanitize

  const CONTENT_LIMIT := 2000
  const EXPORT_LIMIT := 200

  datatype Row = Row(content: string, created: int)

  /** One element of a `facts` list on the wire. */
  datatype Wire = NotADict | Fact(content: string)

  function Clip(s: string): string {
    Sanitized(s, CONTENT_LIMIT)
  }

  /** The form a content settles in: import sanitises what the exporter already sanitised. */
  function Key(s: string): string {
    Clip(Clip(s))
  }

  lemma KeyIsFinal(s: string)
    ensures Clip(Key(s)) == Key(s) && Key(Key(s)) == Key(s) && Key(Clip(s)) == Key(s)
    ensures Clip(s) == "" <==> Key(s) == ""
  {
    IdempotentIff(s, CONTENT_LIMIT);
    IdempotentIff(Clip(s), CONTENT_LIMIT);
  }

  /** Contents are cleaned and capped at 2000 characters, once at the store and again at the import. */
  lemma ClipIs(s: string)
    ensures Clip(s) == Sanitized(s, 2000) && Key(s) == Sanitized(Sanitized(s, 2000), 2000)
  {
  }

  // ---- the store ----

  function Stored(rows: seq<Row>, content: string, now: int): seq<Row> {
    rows + [Row(Clip(content), now)]
  }

  predicate Holds(rows: seq<Row>, content: string) {
    exists i :: 0 <= i < |rows| && rows[i].content == content
  }

  function Count(rows: seq<Row>, content: string): nat {
    if rows == [] then 0
    else Count(rows[..|rows| - 1], content) + if rows[|rows| - 1].content == content then 1 else 0
  }

  lemma {:induction false} CountPositiveIffHeld(rows: seq<Row>, content: string)
    ensures Count(rows, content) > 0 <==> Holds(rows, content)
  {
    if rows != [] {
      var init := rows[..|rows| - 1];
      CountPositiveIffHeld(init, content);
      if Holds(rows, content) && rows[|rows| - 1].content != content {
        var i :| 0 <= i < |rows| && rows[i].content == content;
        assert init[i].content == content;
      }
    }
  }

  datatype Merge = Merge(rows: seq<Row>, imported: nat, skipped: nat, duplicates: nat)

  /** What one wire fact does to the store and the tally. */
  function MergeOne(m: Merge, w: Wire, now: int): Merge {
    if w.NotADict? || Clip(w.content) == "" then m.(skipped := m.skipped + 1)
    else if Holds(m.rows, Key(w.content)) then m.(duplicates := m.duplicates + 1)
    else m.(rows := Stored(m.rows, Clip(w.content), now), imported := m.imported + 1)
  }

  function MergeAll(rows: seq<Row>, batch: seq<Wire>, clock: int -> int): Merge {
    if batch == [] then Merge(rows, 0, 0, 0)
    else MergeOne(MergeAll(rows, batch[..|batch| - 1], clock), batch[|batch| - 1], clock(|batch| - 1))
  }

  predicate Offers(batch: seq<Wire>, content: string) {
    exists i :: 0 <= i < |batch| && batch[i].Fact? && Clip(batch[i].content) != "" && Key(batch[i].content) == content
  }

  /** An import is a set union that accounts for every fact of the batch: nothing held gets a
      second row, everything offered is held afterwards, and nothing else is. */
  lemma {:induction false} ImportIsUnion(rows: seq<Row>, batch: seq<Wire>, clock: int -> int, content: string)
    ensures var m := MergeAll(rows, batch, clock);
            && m.imported + m.skipped + m.duplicates == |batch|
            && |m.rows| == |rows| + m.imported && rows <= m.rows
            && (Holds(m.rows, content) <==> Holds(rows, content) || Offers(batch, content))
            && (Count(rows, content) > 0 ==> Count(m.rows, content) == Count(rows, content))
            && (Count(rows, content) == 0 ==> Count(m.rows, content) <= 1)
  {
    hide Clip, Key, Holds, Offers, Count, MergeOne;
    NothingOffered(content);
    CountPositiveIffHeld(rows, content);
    if batch != [] {
      var init, w := batch[..|batch| - 1], batch[|batch| - 1];
      ImportIsUnion(rows, init, clock, content);
      var before := MergeAll(rows, init, clock);
      OffersGrows(batch, content);
      MergeOneIsUnion(before, w, clock(|batch| - 1), content);
      CountPositiveIffHeld(before.rows, content);
    }
  }

  /** An element without a text to store. */
  predicate Empty(w: Wire) {
    w.NotADict? || Clip(w.content) == ""
  }

  /** How many elements have no text. */
  function EmptyIn(batch: seq<Wire>): nat {
    if batch == [] then 0 else EmptyIn(batch[..|batch| - 1]) + if Empty(batch[|batch| - 1]) then 1 else 0
  }

  /** How many repeat a content that was held before, or that an earlier element offers. */
  function RepeatsIn(rows: seq<Row>, batch: seq<Wire>): nat {
    if batch == [] then 0
    else
      var init, w := batch[..|batch| - 1], batch[|batch| - 1];
      RepeatsIn(rows, init)
      + if !Empty(w) && (Holds(rows, Key(w.content)) || Offers(init, Key(w.content))) then 1 else 0
  }

  /** The others, in order, each with the time at which it is stored. */
  function NewIn(rows: seq<Row>, batch: seq<Wire>, clock: int -> int): seq<Row> {
    if batch == [] then []
    else
      var init, w := batch[..|batch| - 1], batch[|batch| - 1];
      NewIn(rows, init, clock)
      + if Empty(w) || Holds(rows, Key(w.content)) || Offers(init, Key(w.content)) then []
        else [Row(Key(w.content), clock(|init|))]
  }

  /** Which counter each element of the batch goes to, and which rows are added. */
  lemma {:induction false} ImportCounts(rows: seq<Row>, batch: seq<Wire>, clock: int -> int)
    ensures var m := MergeAll(rows, batch, clock);
            && m.skipped == EmptyIn(batch) && m.duplicates == RepeatsIn(rows, batch)
            && m.rows == rows + NewIn(rows, batch, clock) && m.imported == |NewIn(rows, batch, clock)|
  {
    hide Clip, Holds, Offers;
    if batch != [] {
      var init, w := batch[..|batch| - 1], batch[|batch| - 1];
      ImportCounts(rows, init, clock);
      if w.Fact? {
        ImportIsUnion(rows, init, clock, Key(w.content));
      }
    }
  }

  lemma NothingOffered(content: string)
    ensures !Offers([], content)
  {
  }

  /** One fact: exactly one counter goes up, and a row is added only for content not held. */
  lemma MergeOneIsUnion(m: Merge, w: Wire, now: int, content: string)
    ensures var t := MergeOne(m, w, now);
            var offered := w.Fact? && Clip(w.content) != "" && Key(w.content) == content;
            && t.imported + t.skipped + t.duplicates == m.imported + m.skipped + m.duplicates + 1
            && |t.rows| - |m.rows| == t.imported - m.imported && m.rows <= t.rows
            && (Holds(t.rows, content) <==> Holds(m.rows, content) || offered)
            && Count(t.rows, content) == if offered && !Holds(m.rows, content) then Count(m.rows, content) + 1
                                         else Count(m.rows, content)
  {
    hide Clip, Holds;
    var t := MergeOne(m, w, now);
    if t.rows != m.rows {
      KeyIsFinal(w.content);
      HoldsGrows(m.rows, Row(Key(w.content), now), content);
      assert t.rows[..|t.rows| - 1] == m.rows;
    }
  }

  lemma OffersGrows(batch: seq<Wire>, content: string)
    requires batch != []
    ensures var w := batch[|batch| - 1];
            Offers(batch, content) <==>
              Offers(batch[..|batch| - 1], content) || (w.Fact? && Clip(w.content) != "" && Key(w.content) == content)
  {
    hide Clip, Key;
    var init := batch[..|batch| - 1];
    if Offers(init, content) {
      var i :| 0 <= i < |init| && init[i].Fact? && Clip(init[i].content) != "" && Key(init[i].content) == content;
      assert batch[i] == init[i];
    }
    if Offers(batch, content) {
      var i :| 0 <= i < |batch| && batch[i].Fact? && Clip(batch[i].content) != "" && Key(batch[i].content) == content;
      assert i < |init| ==> init[i] == batch[i];
    }
  }

  lemma HoldsGrows(rows: seq<Row>, r: Row, content: string)
    ensures Holds(rows + [r], content) <==> Holds(rows, content) || r.content == content
  {
    var all := rows + [r];
    if Holds(rows, content) {
      var i :| 0 <= i < |rows| && rows[i].content == content;
      assert all[i].content == content;
    }
    if r.content == content {
      assert all[|rows|].content == content;
    }
  }

  // ---- the export ----

  /** Rows created after the watermark, in insertion order. */
  function After(rows: seq<Row>, since: Option<int>): seq<Row> {
    if rows == [] then []
    else After(rows[..|rows| - 1], since)
         + if since.None? || rows[|rows| - 1].created > since.value then [rows[|rows| - 1]] else []
  }

  /** Insertion from the right keeps equal stamps in row order. */
  function Place(s: seq<Row>, r: Row): seq<Row> {
    if s == [] || s[|s| - 1].created <= r.created then s + [r]
    else Place(s[..|s| - 1], r) + [s[|s| - 1]]
  }

  function ByStamp(s: seq<Row>): seq<Row> {
    if s == [] then [] else Place(ByStamp(s[..|s| - 1]), s[|s| - 1])
  }

  function Pending(rows: seq<Row>, since: Option<int>): seq<Row> {
    ByStamp(After(rows, since))
  }

  function Export(rows: seq<Row>, since: Option<int>, limit: int): seq<Row> {
    var capped := if limit < 1 then 1 else if limit > 1000 then 1000 else limit;
    var all := Pending(rows, since);
    if |all| <= capped then all else all[..capped]
  }

  /** An export is the start of the pending rows: as many as asked for, but one at least and a
      thousand at most; a sync asks for 200. */
  lemma ExportOverFields(rows: seq<Row>, since: Option<int>, limit: int)
    ensures var n := if limit <= 0 then 1 else if limit >= 1000 then 1000 else limit;
            var batch := Export(rows, since, limit);
            batch <= Pending(rows, since) && (|batch| == n || (|batch| < n && batch == Pending(rows, since)))
    ensures |Export(rows, since, EXPORT_LIMIT)| == if |Pending(rows, since)| < 200 then |Pending(rows, since)| else 200
  {
  }

  ghost predicate Ordered(s: seq<Row>) {
    forall i, j :: 0 <= i < j < |s| ==> s[i].created <= s[j].created
  }

  lemma {:induction false} PlaceKeeps(s: seq<Row>, r: Row)
    requires Ordered(s)
    ensures Ordered(Place(s, r)) && multiset(Place(s, r)) == multiset(s) + multiset{r}
  {
    hide Ordered;
    if s == [] {
      AppendOrdered(s, r);
    } else if s[|s| - 1].created <= r.created {
      OrderedInit(s);
      AppendOrdered(s, r);
    } else {
      var init, last := s[..|s| - 1], s[|s| - 1];
      assert s == init + [last];
      OrderedInit(s);
      PlaceKeeps(init, r);
      forall x | x in Place(init, r) ensures x.created <= last.created {
        assert x in multiset(Place(init, r));
      }
      AppendOrdered(Place(init, r), last);
    }
  }

  lemma OrderedInit(s: seq<Row>)
    requires Ordered(s) && s != []
    ensures Ordered(s[..|s| - 1]) && forall x :: x in s ==> x.created <= s[|s| - 1].created
  {
  }

  lemma AppendOrdered(s: seq<Row>, r: Row)
    requires (s != [] ==> Ordered(s)) && forall x :: x in s ==> x.created <= r.created
    ensures Ordered(s + [r])
  {
  }

  lemma NothingOrdered()
    ensures Ordered([])
  {
  }

  lemma {:induction false} ByStampSorts(s: seq<Row>)
    ensures Ordered(ByStamp(s)) && multiset(ByStamp(s)) == multiset(s)
  {
    hide Ordered, Place;
    if s == [] {
      NothingOrdered();
    } else {
      ByStampSorts(s[..|s| - 1]);
      PlaceKeeps(ByStamp(s[..|s| - 1]), s[|s| - 1]);
      assert s == s[..|s| - 1] + [s[|s| - 1]];
    }
  }

  predicate Newer(r: Row, since: Option<int>) {
    since.None? || r.created > since.value
  }

  lemma {:induction false} AfterMembers(rows: seq<Row>, since: Option<int>, r: Row)
    ensures r in After(rows, since) <==> r in rows && Newer(r, since)
  {
    if rows != [] {
      AfterMembers(rows[..|rows| - 1], since, r);
      assert rows == rows[..|rows| - 1] + [rows[|rows| - 1]];
    }
  }

  lemma PendingMembers(rows: seq<Row>, since: Option<int>, r: Row)
    ensures Ordered(Pending(rows, since))
    ensures r in Pending(rows, since) <==> r in rows && Newer(r, since)
  {
    ByStampSorts(After(rows, since));
    AfterMembers(rows, since, r);
    assert r in multiset(Pending(rows, since)) <==> r in multiset(After(rows, since));
  }

  // ---- one sync, and what it leaves behind ----

  datatype Puller = Puller(rows: seq<Row>, watermark: Option<int>)

  function OnWire(batch: seq<Row>): seq<Wire> {
    seq(|batch|, i requires 0 <= i < |batch| => Fact(batch[i].content))
  }

  /** One successful `sync` against an exporter's rows. The watermark moves whether or not the
      import could store anything. */
  function Synced(p: Puller, exporter: seq<Row>, importOk: bool, clock: int -> int): Puller {
    var batch := Export(exporter, p.watermark, EXPORT_LIMIT);
    Puller(if importOk then MergeAll(p.rows, OnWire(batch), clock).rows else p.rows,
           if batch == [] then p.watermark else Some(batch[|batch| - 1].created))
  }

  /** What a sync does: up to 200 of the rows after the watermark are offered to the store, and the
      watermark moves to the last of them. */
  lemma SyncOverFields(p: Puller, exporter: seq<Row>, importOk: bool, clock: int -> int)
    ensures var pending := Pending(exporter, p.watermark);
            var batch := if |pending| > 200 then pending[..200] else pending;
            && Export(exporter, p.watermark, EXPORT_LIMIT) == batch
            && Synced(p, exporter, importOk, clock).rows
               == (if importOk then p.rows + NewIn(p.rows, OnWire(batch), clock) else p.rows)
            && Synced(p, exporter, importOk, clock).watermark
               == if batch == [] then p.watermark else Some(batch[|batch| - 1].created)
  {
    hide Pending, NewIn, MergeAll, OnWire;
    ImportCounts(p.rows, OnWire(Export(exporter, p.watermark, EXPORT_LIMIT)), clock);
  }

  predicate Settled(p: Puller, r: Row) {
    Clip(r.content) == "" || Holds(p.rows, Key(r.content))
  }

  /** Everything the watermark has passed is held: what a resumed pull relies on. */
  ghost predicate Covered(p: Puller, exporter: seq<Row>) {
    forall r :: r in exporter && !Newer(r, p.watermark) ==> Settled(p, r)
  }

  /** A bounded batch ends between two rows with the same stamp. */
  predicate CutsTie(p: Puller, exporter: seq<Row>) {
    var all := Pending(exporter, p.watermark);
    |all| > EXPORT_LIMIT && all[EXPORT_LIMIT].created == all[EXPORT_LIMIT - 1].created
  }

  lemma BatchIsSettled(p: Puller, exporter: seq<Row>, clock: int -> int, r: Row)
    ensures r in Export(exporter, p.watermark, EXPORT_LIMIT) ==> Settled(Synced(p, exporter, true, clock), r)
    ensures Settled(p, r) ==> Settled(Synced(p, exporter, true, clock), r)
  {
    var batch := Export(exporter, p.watermark, EXPORT_LIMIT);
    ImportIsUnion(p.rows, OnWire(batch), clock, Key(r.content));
    if r in batch && Clip(r.content) != "" {
      var i :| 0 <= i < |batch| && batch[i] == r;
      assert OnWire(batch)[i] == Fact(r.content);
      assert Offers(OnWire(batch), Key(r.content));
    }
  }

  /** The pending rows that a batch leaves behind although they share its last stamp. */
  ghost predicate LeftInTie(all: seq<Row>, i: int) {
    EXPORT_LIMIT <= i < |all| && all[i].created == all[EXPORT_LIMIT - 1].created
  }

  /** The content is held already, or arrives with the batch. */
  ghost predicate HeldOrOffered(p: Puller, all: seq<Row>, i: int)
    requires EXPORT_LIMIT <= i < |all|
  {
    Settled(p, all[i]) || Offers(OnWire(all[..EXPORT_LIMIT]), Key(all[i].content))
  }

  /** A sync keeps the pull resumable exactly when every pending row left behind under the
      batch's last stamp has a content that is held already or in the batch. Without a cut tie
      there is no such row. */
  lemma SyncKeepsCoveredIff(p: Puller, exporter: seq<Row>, clock: int -> int)
    requires Covered(p, exporter)
    ensures var all := Pending(exporter, p.watermark);
            && (Covered(Synced(p, exporter, true, clock), exporter) <==>
                  forall i {:trigger LeftInTie(all, i)} :: LeftInTie(all, i) ==> HeldOrOffered(p, all, i))
            && (!CutsTie(p, exporter) ==> forall i {:trigger LeftInTie(all, i)} :: !LeftInTie(all, i))
  {
    var q := Synced(p, exporter, true, clock);
    var all := Pending(exporter, p.watermark);
    forall i | LeftInTie(all, i)
      ensures all[i] in exporter && !Newer(all[i], q.watermark) && CutsTie(p, exporter)
      ensures Settled(q, all[i]) <==> HeldOrOffered(p, all, i)
    {
      PendingMembers(exporter, p.watermark, all[i]);
      assert all[EXPORT_LIMIT - 1].created <= all[EXPORT_LIMIT].created;
      assert EXPORT_LIMIT < i ==> all[EXPORT_LIMIT].created <= all[i].created;
      ImportIsUnion(p.rows, OnWire(all[..EXPORT_LIMIT]), clock, Key(all[i].content));
    }
    forall r | r in exporter && !Newer(r, q.watermark)
      ensures Settled(q, r) || exists i :: LeftInTie(all, i) && all[i] == r
    {
      PassedRow(p, exporter, clock, r);
    }
  }

  lemma PassedRow(p: Puller, exporter: seq<Row>, clock: int -> int, r: Row)
    requires Covered(p, exporter) && r in exporter && !Newer(r, Synced(p, exporter, true, clock).watermark)
    ensures var all := Pending(exporter, p.watermark);
            Settled(Synced(p, exporter, true, clock), r) || exists i :: LeftInTie(all, i) && all[i] == r
  {
    var all := Pending(exporter, p.watermark);
    BatchIsSettled(p, exporter, clock, r);
    PendingMembers(exporter, p.watermark, r);
    if Newer(r, p.watermark) {
      var i :| 0 <= i < |all| && all[i] == r;
      if i < EXPORT_LIMIT {
        assert r in Export(exporter, p.watermark, EXPORT_LIMIT);
      } else {
        assert all[EXPORT_LIMIT - 1].created <= all[i].created;
        assert LeftInTie(all, i);
      }
    }
  }

  /** A row the exporter stores keeps the pull resumable exactly when its stamp is past the
      watermark or its content is already held. A stamp has a resolution of one second. */
  lemma StoreKeepsCoveredIff(p: Puller, exporter: seq<Row>, content: string, now: int)
    requires Covered(p, exporter)
    ensures var r := Row(Clip(content), now);
            Covered(p, Stored(exporter, content, now)) <==> Newer(r, p.watermark) || Settled(p, r)
  {
    var r := Row(Clip(content), now);
    assert r in Stored(exporter, content, now);
  }

  /** Once a sync transfers nothing, the puller holds all the exporter has exactly when the
      watermark never passed a row it does not hold. */
  lemma QuietMeansAllHeldIffCovered(p: Puller, exporter: seq<Row>)
    requires Export(exporter, p.watermark, EXPORT_LIMIT) == []
    ensures (forall r :: r in exporter ==> Settled(p, r)) <==> Covered(p, exporter)
  {
    forall r | r in exporter ensures !Newer(r, p.watermark) {
      PendingMembers(exporter, p.watermark, r);
    }
  }

  // ---- repeated syncs ----

  /** One successful round per clock. */
  function SyncedTimes(p: Puller, exporter: seq<Row>, clocks: seq<int -> int>): Puller {
    if clocks == [] then p
    else Synced(SyncedTimes(p, exporter, clocks[..|clocks| - 1]), exporter, true, clocks[|clocks| - 1])
  }

  ghost predicate DistinctStamps(rows: seq<Row>) {
    forall i, j :: 0 <= i < j < |rows| ==> rows[i].created < rows[j].created
  }

  lemma {:induction false} AfterKeepsDistinct(rows: seq<Row>, since: Option<int>)
    requires DistinctStamps(rows)
    ensures DistinctStamps(After(rows, since))
  {
    if rows != [] {
      var init, last := rows[..|rows| - 1], rows[|rows| - 1];
      AfterKeepsDistinct(init, since);
      var a := After(init, since);
      forall i | 0 <= i < |a| ensures a[i].created < last.created {
        AfterMembers(init, since, a[i]);
      }
    }
  }

  lemma {:induction false} OrderedIsSorted(s: seq<Row>)
    requires Ordered(s)
    ensures ByStamp(s) == s
  {
    hide Ordered;
    if s != [] {
      var init := s[..|s| - 1];
      OrderedInit(s);
      OrderedIsSorted(init);
      assert s == init + [s[|s| - 1]];
      assert init != [] ==> init[|init| - 1] in s;
    }
  }

  /** With distinct stamps the pending rows are simply the rows after the watermark. */
  lemma DistinctArePending(rows: seq<Row>, since: Option<int>)
    requires DistinctStamps(rows)
    ensures Pending(rows, since) == After(rows, since) && DistinctStamps(After(rows, since))
  {
    AfterKeepsDistinct(rows, since);
    OrderedIsSorted(After(rows, since));
  }

  /** The rows after the last stamp of a batch are the rest of the pending rows. */
  lemma {:induction false} RestAfterBatch(rows: seq<Row>, since: Option<int>, k: nat)
    requires DistinctStamps(rows) && 0 < k <= |After(rows, since)|
    ensures After(rows, Some(After(rows, since)[k - 1].created)) == After(rows, since)[k..]
  {
    var all := After(rows, since);
    var init, last := rows[..|rows| - 1], rows[|rows| - 1];
    var a := After(init, since);
    if k <= |a| {
      RestAfterBatch(init, since, k);
      assert all[k - 1] == a[k - 1];
      AfterMembers(init, since, a[k - 1]);
      assert all[k..] == a[k..] + if Newer(last, since) then [last] else [];
      assert since.Some? ==> a[k - 1].created > since.value;
    } else {
      assert all == a + [last] && all[k - 1] == last;
      NothingNewer(init, last.created);
    }
  }

  lemma {:induction false} NothingNewer(rows: seq<Row>, mark: int)
    requires forall r :: r in rows ==> r.created <= mark
    ensures After(rows, Some(mark)) == []
  {
    if rows != [] {
      NothingNewer(rows[..|rows| - 1], mark);
    }
  }

  function Left(pending: nat, rounds: nat): nat {
    if pending <= rounds * EXPORT_LIMIT then 0 else pending - rounds * EXPORT_LIMIT
  }

  ghost predicate Reached(q: Puller, exporter: seq<Row>, left: nat) {
    Covered(q, exporter) && |Pending(exporter, q.watermark)| == left
  }

  lemma {:induction false} RoundsDrainPending(p: Puller, exporter: seq<Row>, clocks: seq<int -> int>)
    requires DistinctStamps(exporter) && Covered(p, exporter)
    ensures Reached(SyncedTimes(p, exporter, clocks), exporter, Left(|Pending(exporter, p.watermark)|, |clocks|))
  {
    if clocks != [] {
      var o := SyncedTimes(p, exporter, clocks[..|clocks| - 1]);
      var left := Left(|Pending(exporter, p.watermark)|, |clocks| - 1);
      RoundsDrainPending(p, exporter, clocks[..|clocks| - 1]);
      SyncAdvances(o, exporter, clocks[|clocks| - 1], left);
      assert Left(left, 1) == Left(|Pending(exporter, p.watermark)|, |clocks|);
    }
  }

  /** Repeated bounded syncs reach a fixed point: after enough rounds to carry the pending
      rows the puller holds everything, and a further sync has nothing to transfer. */
  lemma RepeatedSyncsConverge(p: Puller, exporter: seq<Row>, clocks: seq<int -> int>)
    requires DistinctStamps(exporter) && Covered(p, exporter)
    requires |Pending(exporter, p.watermark)| <= |clocks| * EXPORT_LIMIT
    ensures var q := SyncedTimes(p, exporter, clocks);
            Export(exporter, q.watermark, EXPORT_LIMIT) == [] && forall r :: r in exporter ==> Settled(q, r)
  {
    RoundsDrainPending(p, exporter, clocks);
    QuietMeansAllHeldIffCovered(SyncedTimes(p, exporter, clocks), exporter);
  }

  /** A sync that finds nothing to transfer leaves the store and the watermark alone. */
  lemma QuietSyncChangesNothing(p: Puller, exporter: seq<Row>, importOk: bool, clock: int -> int)
    requires Export(exporter, p.watermark, EXPORT_LIMIT) == []
    ensures Synced(p, exporter, importOk, clock) == p
  {
    assert OnWire([]) == [];
  }

  /** A refused import still moves the watermark: coverage survives it exactly when the rows
      of the batch, and any with the batch's last stamp, were held already. */
  lemma RefusedImportKeepsCoveredIff(p: Puller, exporter: seq<Row>, clock: int -> int)
    requires Covered(p, exporter) && Export(exporter, p.watermark, EXPORT_LIMIT) != []
    ensures var batch := Export(exporter, p.watermark, EXPORT_LIMIT);
            Covered(Synced(p, exporter, false, clock), exporter) <==>
              forall r :: r in exporter && Newer(r, p.watermark) && r.created <= batch[|batch| - 1].created ==>
                Settled(p, r)
  {
    var batch := Export(exporter, p.watermark, EXPORT_LIMIT);
    var last := batch[|batch| - 1];
    PendingMembers(exporter, p.watermark, last);
    assert last in Pending(exporter, p.watermark);
    var q := Synced(p, exporter, false, clock);
    assert forall r :: Settled(q, r) <==> Settled(p, r);
  }

  lemma SyncAdvances(o: Puller, exporter: seq<Row>, clock: int -> int, left: nat)
    requires DistinctStamps(exporter) && Reached(o, exporter, left)
    ensures Reached(Synced(o, exporter, true, clock), exporter, Left(left, 1))
  {
    var q := Synced(o, exporter, true, clock);
    DistinctArePending(exporter, o.watermark);
    DistinctArePending(exporter, q.watermark);
    SyncKeepsCoveredIff(o, exporter, clock);
    var all := Pending(exporter, o.watermark);
    if all != [] {
      RestAfterBatch(exporter, o.watermark, if |all| <= EXPORT_LIMIT then |all| else EXPORT_LIMIT);
    }
  }

  // ---- what a cut tie and a cut text lose ----

  /** One row more than a batch holds, all stored within one second. */
  function OneSecond(): seq<Row> {
    seq(EXPORT_LIMIT + 1, i => Row(if i == EXPORT_LIMIT then "y" else "x", 0))
  }

  lemma {:induction false} AllAreAfterNothing(rows: seq<Row>)
    ensures After(rows, None) == rows
  {
    if rows != [] {
      AllAreAfterNothing(rows[..|rows| - 1]);
    }
  }

  lemma ShortTextIsFinal(s: string)
    requires s == "x" || s == "y"
    ensures Clip(s) == s && Key(s) == s
  {
    CleanIsStable(s);
    StripTrims(s);
  }

  /** The last of these rows is never delivered to a peer that starts with nothing, however
      often it syncs. */
  lemma TieCutLosesRow(clocks: seq<int -> int>)
    ensures !Settled(SyncedTimes(Puller([], None), OneSecond(), clocks), OneSecond()[EXPORT_LIMIT])
  {
    ShortTextIsFinal("x");
    ShortTextIsFinal("y");
    if clocks != [] {
      StuckAfterTie(clocks);
    }
  }

  lemma {:induction false} StuckAfterTie(clocks: seq<int -> int>)
    requires clocks != []
    ensures var q := SyncedTimes(Puller([], None), OneSecond(), clocks);
            q.watermark == Some(0) && !Holds(q.rows, "y")
  {
    var rows := OneSecond();
    if |clocks| == 1 {
      assert clocks[..0] == [];
      AllAreAfterNothing(rows);
      OrderedIsSorted(rows);
      ShortTextIsFinal("x");
      var batch := rows[..EXPORT_LIMIT];
      assert Export(rows, None, EXPORT_LIMIT) == batch;
      ImportIsUnion([], OnWire(batch), clocks[0], "y");
      assert !Offers(OnWire(batch), "y");
    } else {
      StuckAfterTie(clocks[..|clocks| - 1]);
      NothingNewer(rows, 0);
      var before := SyncedTimes(Puller([], None), rows, clocks[..|clocks| - 1]);
      QuietSyncChangesNothing(before, rows, true, clocks[|clocks| - 1]);
    }
  }

  /** The puller's copy is the exporter's content letter for letter exactly when the exporter's
      cap did not cut the text right after a space. */
  lemma CopyIsExactIff(original: string)
    ensures var body := Strip(Clean(original));
            Key(original) == Clip(original) <==> |body| <= CONTENT_LIMIT || !IsSpace(body[CONTENT_LIMIT - 1])
  {
    IdempotentIff(original, CONTENT_LIMIT);
  }

  /** And some content is cut there. */
  lemma SomeCopyIsNotExact() returns (original: string)
    ensures Key(original) != Clip(original)
  {
    original := SomeTextIsNotFinal(CONTENT_LIMIT);
  }
}
