/** The hash-chained audit log: append, reopen, verify. */
module AuditChain {
  import opened Options

  type Digest = string

  const GENESIS: Digest := "0000000000000000000000000000000000000000000000000000000000000000"

  /** The hashed part of an entry. Payload, type and time stamp are opaque JSON text. */
  datatype Body = Body(seqNo: int, stamp: string, kind: string, payload: string, prev: Digest)

  /** `mac` is None when the signature is missing or empty, which the code treats alike. */
  datatype Entry = Entry(body: Body, hash: Digest, mac: Option<Digest>)

  /** A line of the file. `Foreign` is valid JSON that is not an object, or an object whose
      number is a text that is not an integer: reopening skips it, verification raises on it. */
  datatype Line = Blank | Malformed | Foreign | Record(entry: Entry)

  /** SHA-256 of the previous hash and the canonical body, and HMAC-SHA256 of the canonical
      entry. Every body names its previous hash, so both are functions of what they cover. */
  datatype Crypto = Crypto(sha: Body -> Digest, hmac: (string, Body, Digest) -> Digest)

  /** Collision freedom, the assumption every result about tampering rests on. */
  ghost predicate CollisionFree(c: Crypto) {
    && (forall a, b :: c.sha(a) == c.sha(b) ==> a == b)
    && (forall k, l, a, b, h, i :: c.hmac(k, a, h) == c.hmac(l, b, i) ==> k == l && a == b && h == i)
  }

  function Records(lines: seq<Line>): seq<Entry> {
    if lines == [] then []
    else Records(lines[..|lines| - 1])
         + if lines[|lines| - 1].Record? then [lines[|lines| - 1].entry] else []
  }

  function TailHash(entries: seq<Entry>): Digest {
    if entries == [] then GENESIS else entries[|entries| - 1].hash
  }

  /** What is right about entry `i` of a chain; an empty key checks no signature. */
  predicate Linked(c: Crypto, key: string, entries: seq<Entry>, i: nat)
    requires i < |entries|
  {
    var e := entries[i];
    && e.body.seqNo == i + 1
    && e.body.prev == TailHash(entries[..i])
    && e.hash == c.sha(e.body)
    && (key != "" ==> e.mac == Some(c.hmac(key, e.body, e.hash)))
  }

  ghost predicate Chained(c: Crypto, key: string, entries: seq<Entry>) {
    forall i {:trigger entries[i]} :: 0 <= i < |entries| ==> Linked(c, key, entries, i)
  }

  /** What `verify_audit_file` accepts. */
  ghost predicate Verifies(c: Crypto, key: string, lines: seq<Line>) {
    Malformed !in lines && Foreign !in lines && Chained(c, key, Records(lines))
  }

  /** Drops the signatures, which the plain chain does not cover. */
  function Unsigned(entries: seq<Entry>): seq<Entry> {
    seq(|entries|, i requires 0 <= i < |entries| => entries[i].(mac := None))
  }

  // ---- verification ----

  /** `raised` says that an exception leaves the function, which then returns nothing else. */
  method VerifyAuditFile(c: Crypto, lines: seq<Line>, key: string)
    returns (raised: bool, ok: bool, errors: nat, checked: nat)
    ensures raised <==> Foreign in lines
    ensures ok <==> Verifies(c, key, lines)
    ensures !raised ==> (ok <==> errors == 0) && checked == |Records(lines)|
  {
    raised, ok, errors, checked := false, false, 0, 0;
    var expectedPrev, expectedSeq := GENESIS, 1;
    var n := 0;
    while n < |lines|
      invariant 0 <= n <= |lines| && Foreign !in lines[..n]
      invariant checked == |Records(lines[..n])| && expectedSeq == checked + 1
      invariant expectedPrev == TailHash(Records(lines[..n]))
      invariant errors == 0 <==> Verifies(c, key, lines[..n])
    {
      assert lines[..n + 1][..n] == lines[..n] && lines[..n + 1] == lines[..n] + [lines[n]];
      var line := lines[n];
      n := n + 1;
      if line.Blank? {
        VerifiesExtends(c, key, lines[..n - 1], line);
        continue;
      }
      if line.Malformed? {
        VerifiesExtends(c, key, lines[..n - 1], line);
        errors := errors + 1;
        continue;
      }
      if line.Foreign? {
        assert line in lines;
        return true, false, errors, checked;
      }
      checked := checked + 1;
      var entry := line.entry;
      ghost var sofar := Records(lines[..n - 1]);
      ghost var before := errors;
      if entry.body.prev != expectedPrev {
        errors := errors + 1;
      }
      if entry.body.seqNo != expectedSeq {
        errors := errors + 1;
      }
      if entry.hash != c.sha(entry.body) {
        errors := errors + 1;
      }
      if key != "" {
        if entry.mac.None? {
          errors := errors + 1;
        } else if c.hmac(key, entry.body, entry.hash) != entry.mac.value {
          errors := errors + 1;
        }
      }
      assert errors == before <==> Linked(c, key, sofar + [entry], |sofar|) by {
        assert (sofar + [entry])[..|sofar|] == sofar;
      }
      VerifiesExtends(c, key, lines[..n - 1], line);
      expectedPrev := entry.hash;
      expectedSeq := expectedSeq + 1;
    }
    assert lines[..n] == lines;
    ok := errors == 0;
  }

  lemma VerifiesExtends(c: Crypto, key: string, lines: seq<Line>, line: Line)
    ensures line.Record? ==>
              && Records(lines + [line]) == Records(lines) + [line.entry]
              && (Verifies(c, key, lines + [line]) <==>
                    Verifies(c, key, lines) && Linked(c, key, Records(lines) + [line.entry], |Records(lines)|))
    ensures !line.Record? ==> Records(lines + [line]) == Records(lines)
    ensures line.Malformed? || line.Foreign? ==> !Verifies(c, key, lines + [line])
    ensures line.Blank? ==> (Verifies(c, key, lines + [line]) <==> Verifies(c, key, lines))
  {
    var all := lines + [line];
    assert all[..|lines|] == lines && all[|lines|] == line;
    assert Malformed in all <==> Malformed in lines || line == Malformed;
    assert Foreign in all <==> Foreign in lines || line == Foreign;
    if line.Record? {
      ChainedExtends(c, key, Records(lines), line.entry);
    }
  }

  lemma ChainedExtends(c: Crypto, key: string, entries: seq<Entry>, e: Entry)
    ensures Chained(c, key, entries + [e]) <==>
              Chained(c, key, entries) && Linked(c, key, entries + [e], |entries|)
  {
    hide Linked;
    var all := entries + [e];
    forall i | 0 <= i < |entries|
      ensures all[i] == entries[i] && (Linked(c, key, all, i) <==> Linked(c, key, entries, i))
    {
      LinkedInPrefix(c, key, entries, e, i);
    }
    assert all[|entries|] == e;
  }

  lemma LinkedInPrefix(c: Crypto, key: string, entries: seq<Entry>, e: Entry, i: nat)
    requires i < |entries|
    ensures Linked(c, key, entries + [e], i) <==> Linked(c, key, entries, i)
  {
    assert (entries + [e])[..i] == entries[..i];
  }

  // ---- the chain determines its history ----

  /** Two non-empty files that verify and end in the same hash hold the same entries, up to
      their signatures; under a key, signatures included. */
  lemma HashDeterminesHistory(c: Crypto, key: string, a: seq<Line>, b: seq<Line>)
    requires CollisionFree(c) && Verifies(c, key, a) && Verifies(c, key, b)
    requires Records(a) != [] && Records(b) != [] && TailHash(Records(a)) == TailHash(Records(b))
    ensures Unsigned(Records(a)) == Unsigned(Records(b))
    ensures key != "" ==> Records(a) == Records(b)
  {
    SameTailSameEntries(c, key, Records(a), Records(b));
  }

  lemma {:induction false} SameTailSameEntries(c: Crypto, key: string, a: seq<Entry>, b: seq<Entry>)
    requires CollisionFree(c) && Chained(c, key, a) && Chained(c, key, b)
    requires a != [] && b != [] && TailHash(a) == TailHash(b)
    ensures |a| == |b| && Unsigned(a) == Unsigned(b)
    ensures key != "" ==> a == b
  {
    hide CollisionFree, Chained, Linked, Unsigned;
    var n := |a| - 1;
    LastAgrees(c, key, a, b);
    assert a == a[..n] + [a[n]] && b == b[..n] + [b[n]];
    if n > 0 {
      ChainedPrefix(c, key, a, n);
      ChainedPrefix(c, key, b, n);
      SameTailSameEntries(c, key, a[..n], b[..n]);
    }
    UnsignedAppends(a[..n], a[n]);
    UnsignedAppends(b[..n], b[n]);
  }

  lemma UnsignedAppends(entries: seq<Entry>, e: Entry)
    ensures Unsigned(entries + [e]) == Unsigned(entries) + [e.(mac := None)]
  {
  }

  /** The last hash fixes the last body, and with it the number of entries and the hash before. */
  lemma LastAgrees(c: Crypto, key: string, a: seq<Entry>, b: seq<Entry>)
    requires CollisionFree(c) && Chained(c, key, a) && Chained(c, key, b)
    requires a != [] && b != [] && TailHash(a) == TailHash(b)
    ensures |a| == |b| && TailHash(a[..|a| - 1]) == TailHash(b[..|b| - 1])
    ensures a[|a| - 1].(mac := None) == b[|b| - 1].(mac := None)
    ensures key != "" ==> a[|a| - 1] == b[|b| - 1]
  {
    hide CollisionFree;
    assert Linked(c, key, a, |a| - 1) && Linked(c, key, b, |b| - 1);
    ShaDetermines(c, a[|a| - 1].body, b[|b| - 1].body);
  }

  lemma ShaDetermines(c: Crypto, a: Body, b: Body)
    requires CollisionFree(c) && c.sha(a) == c.sha(b)
    ensures a == b
  {
  }

  lemma ChainedPrefix(c: Crypto, key: string, entries: seq<Entry>, n: nat)
    requires Chained(c, key, entries) && n <= |entries|
    ensures Chained(c, key, entries[..n])
  {
    forall i | 0 <= i < n ensures Linked(c, key, entries[..n], i) {
      assert Linked(c, key, entries, i);
      assert entries[..n][..i] == entries[..i];
    }
  }

  /** So an edit, insertion, reordering or interior deletion that keeps the last entry of a
      verifying file leaves a file that does not verify. */
  lemma TamperingIsDetected(c: Crypto, original: seq<Line>, tampered: seq<Line>)
    requires CollisionFree(c) && Verifies(c, "", original)
    requires Records(original) != [] && Records(tampered) != []
    requires TailHash(Records(original)) == TailHash(Records(tampered))
    requires Unsigned(Records(original)) != Unsigned(Records(tampered))
    ensures !Verifies(c, "", tampered)
  {
    if Verifies(c, "", tampered) {
      HashDeterminesHistory(c, "", original, tampered);
    }
  }

  /** What the chain cannot show: the entries a truncation leaves verify on their own. */
  lemma TruncationVerifies(c: Crypto, key: string, lines: seq<Line>, n: nat)
    requires Verifies(c, key, lines) && n <= |lines|
    ensures Verifies(c, key, lines[..n])
  {
    RecordsPrefix(lines, n);
    var k := |Records(lines[..n])|;
    assert Records(lines[..n]) == Records(lines)[..k];
    ChainedPrefix(c, key, Records(lines), k);
  }

  lemma {:induction false} RecordsPrefix(lines: seq<Line>, n: nat)
    requires n <= |lines|
    ensures Records(lines[..n]) <= Records(lines)
  {
    if n < |lines| {
      RecordsPrefix(lines[..|lines| - 1], n);
      assert lines[..|lines| - 1][..n] == lines[..n];
    } else {
      assert lines[..n] == lines;
    }
  }

  // ---- append and reopen ----

  /** The log file, shared by the chains that successive processes open on it. */
  class LogFile {
    var lines: seq<Line>

    constructor ()
      ensures lines == []
    {
      lines := [];
    }
  }

  /** What `_load_existing` adopts: the number and hash of the last readable entry. */
  function Adopted(lines: seq<Line>): Position {
    var r := Records(lines);
    if r == [] then Position(0, GENESIS) else Position(r[|r| - 1].body.seqNo, r[|r| - 1].hash)
  }

  datatype Position = Position(last: int, tail: Digest)

  function Made(c: Crypto, key: string, at: Position, stamp: string, kind: string, payload: string): Entry {
    var body := Body(at.last + 1, stamp, kind, payload, at.tail);
    var hash := c.sha(body);
    Entry(body, hash, if key == "" then None else Some(c.hmac(key, body, hash)))
  }

  class Chain {
    const file: LogFile
    const crypto: Crypto
    const key: string
    var last: int
    var tail: Digest

    /** The chain's memory agrees with the file: nobody else has written to it. */
    ghost predicate Current()
      reads this, file
    {
      Position(last, tail) == Adopted(file.lines)
    }

    constructor (file: LogFile, crypto: Crypto, key: string)
      ensures this.file == file && this.crypto == crypto && this.key == key
      ensures Current()
    {
      this.file, this.crypto, this.key := file, crypto, key;
      last, tail := 0, GENESIS;
      new;
      var n := 0;
      while n < |file.lines|
        invariant 0 <= n <= |file.lines|
        invariant Position(last, tail) == Adopted(file.lines[..n])
      {
        assert file.lines[..n + 1][..n] == file.lines[..n];
        if file.lines[n].Record? {
          last := file.lines[n].entry.body.seqNo;
          tail := file.lines[n].entry.hash;
        }
        n := n + 1;
      }
      assert file.lines[..n] == file.lines;
    }

    method Append(stamp: string, kind: string, payload: string) returns (entry: Entry)
      requires Current()
      modifies this, file
      ensures Current()
      ensures entry == Made(crypto, key, Position(old(last), old(tail)), stamp, kind, payload)
      ensures entry.body == Body(old(last) + 1, stamp, kind, payload, old(tail))
      ensures entry.hash == crypto.sha(entry.body)
      ensures entry.mac == if key == "" then None else Some(crypto.hmac(key, entry.body, entry.hash))
      ensures last == entry.body.seqNo && tail == entry.hash
      ensures file.lines == old(file.lines) + [Record(entry)]
      ensures forall k :: old(Verifies(crypto, k, file.lines)) && (k == "" || k == key) ==>
                Verifies(crypto, k, file.lines)
    {
      var body := Body(last + 1, stamp, kind, payload, tail);
      var hash := crypto.sha(body);
      entry := Entry(body, hash, if key == "" then None else Some(crypto.hmac(key, body, hash)));
      forall k | Verifies(crypto, k, file.lines) && (k == "" || k == key)
        ensures Verifies(crypto, k, file.lines + [Record(entry)])
      {
        AppendVerifies(crypto, k, key, file.lines, stamp, kind, payload);
      }
      file.lines := file.lines + [Record(entry)];
      assert file.lines[..|file.lines| - 1] == old(file.lines);
      last := entry.body.seqNo;
      tail := entry.hash;
    }
  }

  lemma AppendVerifies(c: Crypto, key: string, signer: string, lines: seq<Line>,
                       stamp: string, kind: string, payload: string)
    requires Verifies(c, key, lines) && (key == "" || key == signer)
    ensures var e := Made(c, signer, Adopted(lines), stamp, kind, payload);
            Verifies(c, key, lines + [Record(e)])
            && e.body.seqNo == |Records(lines)| + 1 && Records(lines + [Record(e)]) == Records(lines) + [e]
  {
    var r := Records(lines);
    var e := Made(c, signer, Adopted(lines), stamp, kind, payload);
    assert (lines + [Record(e)])[..|lines|] == lines;
    if r != [] {
      assert Linked(c, key, r, |r| - 1);
    }
    assert (r + [e])[..|r|] == r;
    ChainedExtends(c, key, r, e);
  }

  // ---- whole runs of one writer ----

  /** Each append names the key its process was started with; a change of process between two
      appends adopts what the file says, which is all that appending uses. */
  datatype Event = Event(signer: string, stamp: string, kind: string, payload: string)

  function Written(c: Crypto, run: seq<Event>): seq<Line> {
    if run == [] then []
    else
      var lines := Written(c, run[..|run| - 1]);
      var e := run[|run| - 1];
      lines + [Record(Made(c, e.signer, Adopted(lines), e.stamp, e.kind, e.payload))]
  }

  /** A run of opens and appends leaves a file that verifies, numbered 1 to n, whose last hash
      is what a reopened chain adopts. Under a key it verifies iff every append used that key. */
  lemma {:induction false} WrittenVerifies(c: Crypto, run: seq<Event>, key: string)
    requires CollisionFree(c)
    ensures var lines := Written(c, run);
            && Verifies(c, "", lines)
            && |Records(lines)| == |run| && Adopted(lines) == Position(|run|, TailHash(Records(lines)))
            && (key != "" ==> (Verifies(c, key, lines) <==> forall i :: 0 <= i < |run| ==> run[i].signer == key))
  {
    hide Verifies, CollisionFree, Adopted, Records;
    if run == [] {
      NothingVerifies(c, key);
    } else {
      var init, e := run[..|run| - 1], run[|run| - 1];
      var lines := Written(c, init);
      var made := Made(c, e.signer, Adopted(lines), e.stamp, e.kind, e.payload);
      WrittenVerifies(c, init, key);
      AppendVerifies(c, "", e.signer, lines, e.stamp, e.kind, e.payload);
      assert Written(c, run) == lines + [Record(made)];
      assert run == init + [e];
      AdoptedAfter(lines, made);
      if key != "" && e.signer == key && Verifies(c, key, lines) {
        AppendVerifies(c, key, e.signer, lines, e.stamp, e.kind, e.payload);
      }
      if key != "" && Verifies(c, key, lines + [Record(made)]) {
        SignedByKey(c, key, lines, made, e.signer);
      }
    }
  }

  /** And it holds what was appended, in order. */
  lemma {:induction false} WrittenHolds(c: Crypto, run: seq<Event>)
    ensures var r := Records(Written(c, run));
            |r| == |run| && forall i :: 0 <= i < |run| ==>
              && r[i].body.stamp == run[i].stamp && r[i].body.kind == run[i].kind
              && r[i].body.payload == run[i].payload
  {
    if run != [] {
      var init := run[..|run| - 1];
      WrittenHolds(c, init);
      assert Written(c, run)[..|Written(c, init)|] == Written(c, init);
    }
  }

  lemma NothingVerifies(c: Crypto, key: string)
    ensures Verifies(c, key, []) && Verifies(c, "", []) && Records([]) == [] && Adopted([]) == Position(0, GENESIS)
  {
  }

  lemma AdoptedAfter(lines: seq<Line>, e: Entry)
    ensures Adopted(lines + [Record(e)]) == Position(e.body.seqNo, e.hash)
  {
    assert (lines + [Record(e)])[..|lines|] == lines;
  }

  lemma KeyDetermines(c: Crypto, k: string, l: string, body: Body, hash: Digest)
    requires CollisionFree(c)
    ensures c.hmac(k, body, hash) == c.hmac(l, body, hash) ==> k == l
  {
  }

  lemma SignedByKey(c: Crypto, key: string, lines: seq<Line>, made: Entry, signer: string)
    requires CollisionFree(c) && key != "" && Verifies(c, key, lines + [Record(made)])
    requires made.mac == if signer == "" then None else Some(c.hmac(signer, made.body, made.hash))
    ensures signer == key && Verifies(c, key, lines)
  {
    var all := lines + [Record(made)];
    assert all[..|lines|] == lines && Records(all) == Records(lines) + [made];
    ChainedExtends(c, key, Records(lines), made);
    assert Linked(c, key, Records(all), |Records(lines)|);
    KeyDetermines(c, signer, key, made.body, made.hash);
    forall l | l in lines ensures l in all {
    }
  }
}
