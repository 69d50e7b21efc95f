/** Pulling a shared file from a peer chunk by chunk, checked against its digest. */
module Artifacts {
  import opened Options
  import opened Common
  import Framing

  type Bytes = seq<int>

  /** One reply to a chunk request; `data` is None when the base64 does not decode. */
  datatype Reply = Unreachable | Error | Chunk(offset: Option<int>, sha: string, data: Option<Bytes>)

  datatype Manifest = NoManifest | Manifest(size: int, sha: string)

  /** A peer answers request number `k` for a range; nothing makes its answers consistent. */
  type Peer = (nat, int, int) -> Reply

  datatype Outcome = Broken | Done(part: Bytes, chunks: nat)

  datatype Status = Refused | Failed | Success

  const PART_SUFFIX := ".part"
  const DIGEST_LENGTH := 64
  const NAME_LIMIT := 200
  const LEAST_CHUNK := 16 * 1024
  const RECV_SIZE := Framing.RECV_SIZE

  /** Chunks needed for `size` bytes, `c` at a time. */
  function Ceil(size: nat, c: nat): nat
    requires c > 0
  {
    (size + c - 1) / c
  }

  predicate NameOk(name: string) {
    && 0 < |name| <= NAME_LIMIT && name[0] != '.'
    && '/' !in name && '\\' !in name && '\0' !in name
  }

  /** Reading `length` bytes of a file from `offset`, as far as it goes. */
  function ReadAt(file: Bytes, offset: nat, length: nat): Bytes {
    if offset >= |file| then [] else file[offset..Min(offset + length, |file|)]
  }

  /** How a node that shares `file` answers one chunk request. */
  function ChunkReply(file: Bytes, sha: string, serverChunk: nat, offset: int, length: int): Reply {
    var o := Max(0, offset);
    Chunk(Some(o), sha, Some(ReadAt(file, o, Min(Max(1, length), serverChunk))))
  }

  ghost predicate Honest(peer: Peer, file: Bytes, sha: string, serverChunk: nat) {
    forall k, o, l :: peer(k, o, l) == ChunkReply(file, sha, serverChunk, o, l)
  }

  /** The bytes a reply contributes, or None when the pull must stop. */
  function Accepted(r: Reply, written: nat, digest: string, cap: nat): Option<Bytes> {
    if r.Chunk? && r.offset == Some(written) && r.sha == digest
       && r.data.Some? && r.data.value != [] && written + |r.data.value| <= cap
    then r.data else None
  }

  /** What a reply must say to be taken: exactly the range asked for next, the advertised digest,
      and some bytes that stay within the cap. */
  lemma AcceptedOverFields(r: Reply, written: nat, digest: string, cap: nat)
    ensures match r
            case Chunk(Some(offset), sha, Some(data)) =>
              Accepted(r, written, digest, cap)
              == if offset == written && sha == digest && data != [] && written + |data| <= cap
                 then Some(data) else None
            case _ => Accepted(r, written, digest, cap) == None
  {
  }

  /** What a node serves: the bytes from the offset on, at most its own chunk and at least one if
      there are any, under the digest it announced. */
  lemma ServedOverFields(file: Bytes, sha: string, serverChunk: nat, offset: int, length: int)
    ensures var from := if offset < 0 then 0 else offset;
            var want := if length < 1 then 1 else length;
            var end := from + if want < serverChunk then want else serverChunk;
            ChunkReply(file, sha, serverChunk, offset, length)
            == Chunk(Some(from), sha,
                     Some(if from >= |file| then [] else if end < |file| then file[from..end] else file[from..]))
  {
    assert forall from :: 0 <= from <= |file| ==> file[from..|file|] == file[from..];
  }

  /** The client's frame cap, and for each request how much of the reply had come before the
      chunk of `recv` that completes it. */
  datatype Link = Link(cap: nat, short: int -> int)

  predicate Arrives(link: Link, k: int) {
    link.short(k) <= link.cap
  }

  /** A reply that is cut off reads as no reply. */
  function Received(link: Link, k: nat, r: Reply): Reply {
    if Arrives(link, k) then r else Unreachable
  }

  /** The whole pull from `part` on, as a function of the peer's replies. */
  function Transfer(peer: Peer, link: Link, size: nat, digest: string, chunkBytes: nat, cap: nat,
                    part: Bytes, chunks: nat): Outcome
    decreases size - |part|
  {
    if |part| >= size then Done(part, chunks)
    else
      var reply := Received(link, chunks, peer(chunks, |part|, Min(chunkBytes, size - |part|)));
      var got := Accepted(reply, |part|, digest, cap);
      if got.None? then Broken
      else Transfer(peer, link, size, digest, chunkBytes, cap, part + got.value, chunks + 1)
  }

  /** Whatever the peer does, a pull that completes holds at least the advertised size and
      never more than the cap; past the advertised size only its last chunk can reach. */
  lemma {:induction false} TransferIsBounded(peer: Peer, link: Link, size: nat, digest: string, chunkBytes: nat,
                                             cap: nat, part: Bytes, chunks: nat)
    requires |part| <= cap
    ensures var r := Transfer(peer, link, size, digest, chunkBytes, cap, part, chunks);
            r.Done? ==> size <= |r.part| <= cap && part <= r.part && r.chunks >= chunks
                        && r.chunks - chunks <= |r.part| - |part|
    decreases size - |part|
  {
    if |part| < size {
      var reply := Received(link, chunks, peer(chunks, |part|, Min(chunkBytes, size - |part|)));
      var got := Accepted(reply, |part|, digest, cap);
      if got.Some? {
        TransferIsBounded(peer, link, size, digest, chunkBytes, cap, part + got.value, chunks + 1);
      }
    }
  }

  lemma CeilIs(size: nat, c: nat, n: nat)
    requires c > 0 && n * c < size <= n * c + c
    ensures Ceil(size, c) == n + 1
  {
    var d, r := (size + c - 1) / c, (size + c - 1) % c;
    assert (d - n) * c == size + c - 1 - r - n * c;
    QuotientIsOne(d - n, c);
  }

  lemma QuotientIsOne(k: int, c: nat)
    requires c > 0 && 0 < k * c < 2 * c
    ensures k == 1
  {
    assert k <= 0 ==> k * c <= 0;
    assert k >= 2 ==> k * c >= 2 * c;
  }

  lemma BelowCeil(size: nat, c: nat, n: nat)
    requires c > 0 && n * c < size
    ensures n < Ceil(size, c)
  {
    var d, r := (size + c - 1) / c, (size + c - 1) % c;
    assert d * c == size + c - 1 - r;
    assert d <= n ==> d * c <= n * c;
  }

  /** From an honest peer the pull yields the file itself, one full chunk after another, exactly
      when each of those replies arrives. */
  lemma {:induction false} HonestTransferIsExact(
    peer: Peer, link: Link, file: Bytes, digest: string, chunkBytes: nat, serverChunk: nat, cap: nat,
    part: Bytes, n: nat)
    requires Honest(peer, file, digest, serverChunk) && 0 < |file| <= cap
    requires chunkBytes > 0 && serverChunk > 0
    requires n * Min(chunkBytes, serverChunk) == |part| < |file| && part == file[..|part|]
    ensures var total := Ceil(|file|, Min(chunkBytes, serverChunk));
            Transfer(peer, link, |file|, digest, chunkBytes, cap, part, n)
            == if AllArrive(link, n, total) then Done(file, total) else Broken
    decreases |file| - |part|
  {
    hide Ceil, Arrives;
    var c := Min(chunkBytes, serverChunk);
    BelowCeil(|file|, c, n);
    if Arrives(link, n) {
      var take := Min(c, |file| - |part|);
      var next := file[..|part| + take];
      HonestChunk(peer, file, digest, chunkBytes, serverChunk, cap, |part|, n);
      assert part + file[|part|..|part| + take] == next;
      if |next| < |file| {
        OneMoreChunk(n, c);
        HonestTransferIsExact(peer, link, file, digest, chunkBytes, serverChunk, cap, next, n + 1);
      } else {
        assert next == file;
        CeilIs(|file|, c, n);
      }
    }
  }

  lemma OneMoreChunk(n: nat, c: nat)
    ensures (n + 1) * c == n * c + c
  {
  }

  lemma HonestChunk(peer: Peer, file: Bytes, digest: string, chunkBytes: nat, serverChunk: nat, cap: nat,
                    at: nat, n: nat)
    requires Honest(peer, file, digest, serverChunk) && at < |file| <= cap && chunkBytes > 0 && serverChunk > 0
    ensures var take := Min(Min(chunkBytes, serverChunk), |file| - at);
            Accepted(peer(n, at, Min(chunkBytes, |file| - at)), at, digest, cap) == Some(file[at..at + take])
  {
    var length := Min(chunkBytes, |file| - at);
    assert peer(n, at, length) == ChunkReply(file, digest, serverChunk, at, length);
  }

  ghost predicate AllArrive(link: Link, n: nat, total: nat) {
    forall k {:trigger Arrives(link, k)} :: n <= k < total ==> Arrives(link, k)
  }

  function Base64Length(n: nat): nat {
    4 * ((n + 2) / 3)
  }

  /** How long the reply with chunk `k` is; `over(k)` bytes of it surround the encoded data. */
  function FrameLength(file: Bytes, c: nat, over: int -> nat, k: nat): nat {
    over(k) + Base64Length(|ReadAt(file, k * c, c)|)
  }

  /** A link that cuts each of the file's replies as a network may. */
  ghost predicate Possible(link: Link, file: Bytes, c: nat, over: int -> nat)
    requires c > 0
  {
    forall k: nat :: k < Ceil(|file|, c) ==> Framing.Cut(link.short(k), FrameLength(file, c, over, k))
  }

  ghost predicate AllShortEnough(frameCap: nat, file: Bytes, c: nat, over: int -> nat)
    requires c > 0
  {
    forall k: nat :: k < Ceil(|file|, c) ==> FrameLength(file, c, over, k) <= frameCap + 1
  }

  /** An honest transfer is exact however the network cuts the replies, iff no reply exceeds the
      frame cap by more than one byte (what has come before the last `recv` must be within the
      cap, and that `recv` brings at least one byte); and it always breaks off iff one is longer
      than the cap by more than a whole `recv`. */
  lemma AlwaysExactIff(peer: Peer, file: Bytes, digest: string, chunkBytes: nat, serverChunk: nat, cap: nat,
                       frameCap: nat, over: int -> nat)
    requires Honest(peer, file, digest, serverChunk) && 0 < |file| <= cap
    requires chunkBytes > 0 && serverChunk > 0
    ensures var c := Min(chunkBytes, serverChunk);
            (forall link: Link {:trigger Possible(link, file, c, over)} ::
               link.cap == frameCap && Possible(link, file, c, over) ==>
                 Transfer(peer, link, |file|, digest, chunkBytes, cap, [], 0) == Done(file, Ceil(|file|, c)))
            <==> AllShortEnough(frameCap, file, c, over)
    ensures var c := Min(chunkBytes, serverChunk);
            (forall link: Link {:trigger Possible(link, file, c, over)} ::
               link.cap == frameCap && Possible(link, file, c, over) ==>
                 Transfer(peer, link, |file|, digest, chunkBytes, cap, [], 0) == Broken)
            <==> exists k: nat :: k < Ceil(|file|, c) && FrameLength(file, c, over, k) > frameCap + RECV_SIZE
  {
    hide Transfer, Ceil, Honest, FrameLength, Possible, AllShortEnough, AllArrive;
    var c := Min(chunkBytes, serverChunk);
    forall link: Link
      ensures Transfer(peer, link, |file|, digest, chunkBytes, cap, [], 0)
              == if AllArrive(link, 0, Ceil(|file|, c)) then Done(file, Ceil(|file|, c)) else Broken
    {
      HonestTransferIsExact(peer, link, file, digest, chunkBytes, serverChunk, cap, [], 0);
    }
    EveryLinkDeliversIff(file, c, frameCap, over);
    NoLinkDeliversIff(file, c, frameCap, over);
  }

  lemma EveryLinkDeliversIff(file: Bytes, c: nat, frameCap: nat, over: int -> nat)
    requires c > 0
    ensures (forall link: Link {:trigger Possible(link, file, c, over)} ::
               link.cap == frameCap && Possible(link, file, c, over) ==> AllArrive(link, 0, Ceil(|file|, c)))
            <==> AllShortEnough(frameCap, file, c, over)
  {
    hide Ceil, FrameLength;
    FramesAreNotEmpty(file, c, over);
    var worst := Link(frameCap, (k: int) => if k < 0 then 0 else FrameLength(file, c, over, k) - 1);
    assert Possible(worst, file, c, over);
    if AllArrive(worst, 0, Ceil(|file|, c)) {
      forall k: nat | k < Ceil(|file|, c) ensures FrameLength(file, c, over, k) <= frameCap + 1 {
        assert Arrives(worst, k);
      }
    }
  }

  lemma NoLinkDeliversIff(file: Bytes, c: nat, frameCap: nat, over: int -> nat)
    requires c > 0
    ensures (forall link: Link {:trigger Possible(link, file, c, over)} ::
               link.cap == frameCap && Possible(link, file, c, over) ==> !AllArrive(link, 0, Ceil(|file|, c)))
            <==> exists k: nat :: k < Ceil(|file|, c) && FrameLength(file, c, over, k) > frameCap + RECV_SIZE
  {
    hide Ceil, FrameLength;
    FramesAreNotEmpty(file, c, over);
    var best := Link(frameCap, (k: int) => if k < 0 then 0 else Max(0, FrameLength(file, c, over, k) - RECV_SIZE));
    assert Possible(best, file, c, over);
    if k: nat :| k < Ceil(|file|, c) && FrameLength(file, c, over, k) > frameCap + RECV_SIZE {
      forall link: Link | link.cap == frameCap && Possible(link, file, c, over)
        ensures !AllArrive(link, 0, Ceil(|file|, c))
      {
        assert !Arrives(link, k);
      }
    } else {
      assert AllArrive(best, 0, Ceil(|file|, c));
    }
  }

  lemma FramesAreNotEmpty(file: Bytes, c: nat, over: int -> nat)
    requires c > 0
    ensures forall k: nat :: k < Ceil(|file|, c) ==> FrameLength(file, c, over, k) > 0
  {
    forall k: nat | k < Ceil(|file|, c) ensures FrameLength(file, c, over, k) > 0 {
      CeilReaches(|file|, c, k);
    }
  }

  lemma CeilReaches(size: nat, c: nat, k: nat)
    requires c > 0 && k < Ceil(size, c)
    ensures k * c < size
  {
    var d, r := (size + c - 1) / c, (size + c - 1) % c;
    assert d * c == size + c - 1 - r;
    assert (d - 1) * c == d * c - c;
    assert k <= d - 1 ==> k * c <= (d - 1) * c;
  }

  /** As a node sets up its chunks, an honest transfer breaks off over some network under every
      frame cap up to 21846 bytes, for every file of at least one smallest chunk. */
  lemma SmallCapBreaks(peer: Peer, file: Bytes, digest: string, chunkBytes: nat, serverChunk: nat, cap: nat,
                       frameCap: nat, over: int -> nat)
    requires Honest(peer, file, digest, serverChunk) && LEAST_CHUNK <= |file| <= cap
    requires chunkBytes >= LEAST_CHUNK && serverChunk >= LEAST_CHUNK && frameCap <= 21846
    ensures exists link: Link {:trigger Possible(link, file, Min(chunkBytes, serverChunk), over)} ::
              && link.cap == frameCap && Possible(link, file, Min(chunkBytes, serverChunk), over)
              && Transfer(peer, link, |file|, digest, chunkBytes, cap, [], 0) == Broken
  {
    hide Transfer, Ceil, Honest;
    var c := Min(chunkBytes, serverChunk);
    BelowCeil(|file|, c, 0);
    AlwaysExactIff(peer, file, digest, chunkBytes, serverChunk, cap, frameCap, over);
    Base64Grows(LEAST_CHUNK, |ReadAt(file, 0, c)|);
    assert FrameLength(file, c, over, 0) > frameCap + 1;
    assert !AllShortEnough(frameCap, file, c, over);
    var link: Link :| link.cap == frameCap && Possible(link, file, c, over)
                && Transfer(peer, link, |file|, digest, chunkBytes, cap, [], 0) != Done(file, Ceil(|file|, c));
    HonestTransferIsExact(peer, link, file, digest, chunkBytes, serverChunk, cap, [], 0);
  }

  lemma Base64Grows(a: nat, b: nat)
    requires a <= b
    ensures Base64Length(a) <= Base64Length(b)
  {
  }

  function Lower(s: string): string {
    seq(|s|, i requires 0 <= i < |s| => if 'A' <= s[i] <= 'Z' then s[i] - 'A' + 'a' else s[i])
  }

  class Stager {
    const chunkBytes: nat
    const cap: nat
    const maxFrame: nat
    const sha: Bytes -> string
    /** The staging directory. */
    var files: map<string, Bytes>

    constructor (chunkBytes: int, maxFrame: int, cap: int, sha: Bytes -> string)
      ensures this.chunkBytes == Max(LEAST_CHUNK, Min(chunkBytes, Max(1024, maxFrame) / 2))
      ensures this.cap == Max(64 * 1024, cap) && this.sha == sha && files == map[]
      ensures this.maxFrame == Max(1024, maxFrame)
    {
      this.chunkBytes := Max(LEAST_CHUNK, Min(chunkBytes, Max(1024, maxFrame) / 2));
      this.cap := Max(64 * 1024, cap);
      this.maxFrame := Max(1024, maxFrame);
      this.sha := sha;
      files := map[];
    }

    /** A transfer is started for a bare name of at most 200 characters that hides nothing, a size
        within the cap and a digest of 64 digits, the wanted one if one is wanted. */
    lemma AdmissibleOverFields(name: string, m: Manifest, wanted: string)
      ensures Admissible(name, m, wanted) <==>
                && 0 < |name| <= 200 && name[0] != '.'
                && (forall i :: 0 <= i < |name| ==> name[i] != '/' && name[i] != '\\' && name[i] != '\0')
                && m.Manifest? && |m.sha| == 64 && 0 < m.size <= cap
                && (wanted != "" ==>
                      |wanted| == 64 && forall i :: 0 <= i < 64 ==>
                        m.sha[i] == if 'A' <= wanted[i] <= 'Z' then wanted[i] - 'A' + 'a' else wanted[i])
    {
      assert '/' in name <==> exists i :: 0 <= i < |name| && name[i] == '/';
    }

    /** The link over which a pull's replies travel. */
    function Via(short: int -> int): Link {
      Link(maxFrame, short)
    }

    /** What is checked before a byte is written. */
    predicate Admissible(name: string, m: Manifest, wanted: string) {
      && NameOk(name) && m.Manifest? && |m.sha| == DIGEST_LENGTH
      && 0 < m.size <= cap && (wanted != "" ==> Lower(wanted) == m.sha)
    }

    /** `known` and `staged` say whether the peer and a staging directory are configured, `short`
        how the replies travel, `over` what surrounds the data in each. An honest peer's file
        arrives byte for byte, over every possible link if no reply exceeds the cap by more than a byte; no
        peer can touch the previous file by failing. */
    method FetchArtifact(name: string, known: bool, staged: bool, manifest: Manifest, peer: Peer, short: int -> int,
                         wanted: string, ghost over: int -> nat)
      returns (status: Status, chunks: nat)
      requires chunkBytes > 0
      modifies this`files
      ensures status == Refused <==> !(known && staged && Admissible(name, manifest, wanted))
      ensures status == Refused ==> files == old(files)
      ensures status == Failed ==> files == old(files) - {name + PART_SUFFIX}
      ensures status == Success ==>
                && name in files && files == (old(files) - {name + PART_SUFFIX})[name := files[name]]
                && sha(files[name]) == manifest.sha && manifest.size <= |files[name]| <= cap
                && Transfer(peer, Via(short), manifest.size, manifest.sha, chunkBytes, cap, [], 0)
                   == Done(files[name], chunks)
      ensures forall file: Bytes, serverChunk: nat {:trigger Honest(peer, file, sha(file), serverChunk)} ::
                known && staged && Admissible(name, manifest, wanted) && serverChunk > 0
                && manifest == Manifest(|file|, sha(file)) && Honest(peer, file, sha(file), serverChunk) ==>
                  var total := Ceil(|file|, Min(chunkBytes, serverChunk));
                  && (status == Success <==> AllArrive(Via(short), 0, total))
                  && (status == Success ==> name in files && files[name] == file && chunks == total)
                  && ((&& Possible(Via(short), file, Min(chunkBytes, serverChunk), over)
                       && AllShortEnough(maxFrame, file, Min(chunkBytes, serverChunk), over)) ==> status == Success)
    {
      chunks := 0;
      if !NameOk(name) || !known || !staged {
        return Refused, 0;
      }
      if manifest.NoManifest? || |manifest.sha| != DIGEST_LENGTH {
        return Refused, 0;
      }
      if manifest.size <= 0 || manifest.size > cap {
        return Refused, 0;
      }
      if wanted != "" && Lower(wanted) != manifest.sha {
        return Refused, 0;
      }
      var tmp := name + PART_SUFFIX;
      assert |tmp| > |name|;
      var ok, content;
      ok, content, chunks := PullChunks(manifest.size, manifest.sha, peer, short);
      files := files[tmp := content];
      HonestPullIsExact(manifest, peer, short);
      if !ok || sha(content) != manifest.sha {
        files := files - {tmp};
        return Failed, chunks;
      }
      TransferIsBounded(peer, Via(short), manifest.size, manifest.sha, chunkBytes, cap, [], 0);
      files := (files - {tmp})[name := content];
      status := Success;
    }

    /** The request loop, writing to the open temporary file. */
    method PullChunks(size: nat, digest: string, peer: Peer, short: int -> int)
      returns (ok: bool, part: Bytes, chunks: nat)
      ensures Transfer(peer, Via(short), size, digest, chunkBytes, cap, [], 0)
              == if ok then Done(part, chunks) else Broken
    {
      ok, part, chunks := true, [], 0;
      while ok && |part| < size
        invariant Transfer(peer, Via(short), size, digest, chunkBytes, cap, [], 0)
                  == if ok then Transfer(peer, Via(short), size, digest, chunkBytes, cap, part, chunks) else Broken
        decreases ok, size - |part|
      {
        var reply := Received(Via(short), chunks, peer(chunks, |part|, Min(chunkBytes, size - |part|)));
        if !reply.Chunk? || reply.offset != Some(|part|) || reply.sha != digest {
          ok := false;
        } else if reply.data.None? || reply.data.value == [] || |part| + |reply.data.value| > cap {
          ok := false;
        } else {
          part := part + reply.data.value;
          chunks := chunks + 1;
        }
      }
    }

    ghost function PullOf(file: Bytes, short: int -> int, serverChunk: nat): Outcome
      requires chunkBytes > 0 && serverChunk > 0
    {
      var total := Ceil(|file|, Min(chunkBytes, serverChunk));
      if AllArrive(Via(short), 0, total) then Done(file, total) else Broken
    }

    /** With a frame cap of 32 KiB or more, as the constructor sets up the chunks, every reply
        is short enough if what surrounds the data takes less than a third of the cap. */
    lemma RoomyCapIsEnough(file: Bytes, serverChunk: nat, wished: int, over: int -> nat)
      requires chunkBytes == Max(LEAST_CHUNK, Min(wished, maxFrame / 2)) && serverChunk > 0
      requires maxFrame >= 32 * 1024 && forall k :: over(k) + 2 <= maxFrame / 3
      ensures AllShortEnough(maxFrame, file, Min(chunkBytes, serverChunk), over)
    {
      hide Ceil;
      var c := Min(chunkBytes, serverChunk);
      forall k: nat | k < Ceil(|file|, c) ensures FrameLength(file, c, over, k) <= maxFrame + 1 {
        var data := |ReadAt(file, k * c, c)|;
        assert data <= maxFrame / 2;
        assert 3 * ((data + 2) / 3) <= data + 2;
        assert over(k) + 2 <= maxFrame / 3;
      }
    }

    lemma HonestPullIsExact(manifest: Manifest, peer: Peer, short: int -> int)
      requires manifest.Manifest? && 0 < manifest.size <= cap && chunkBytes > 0
      ensures forall file: Bytes, serverChunk: nat {:trigger Honest(peer, file, sha(file), serverChunk)} ::
                manifest == Manifest(|file|, sha(file)) && serverChunk > 0
                && Honest(peer, file, sha(file), serverChunk) ==>
                  Transfer(peer, Via(short), manifest.size, manifest.sha, chunkBytes, cap, [], 0)
                  == PullOf(file, short, serverChunk)
    {
      forall file: Bytes, serverChunk: nat |
        manifest == Manifest(|file|, sha(file)) && serverChunk > 0 && Honest(peer, file, sha(file), serverChunk)
        ensures Transfer(peer, Via(short), manifest.size, manifest.sha, chunkBytes, cap, [], 0)
                == PullOf(file, short, serverChunk)
      {
        HonestTransferIsExact(peer, Via(short), file, sha(file), chunkBytes, serverChunk, cap, [], 0);
      }
    }
  }

  /** What a pull that got past the checks leaves of the other staged files: all of them,
      unless one is called like the temporary file. That one is always lost. */
  lemma OtherFilesKeptIff(before: map<string, Bytes>, after: map<string, Bytes>, name: string)
    requires after == before - {name + PART_SUFFIX}
             || (name in after && after == (before - {name + PART_SUFFIX})[name := after[name]])
    ensures (forall f :: f in before && f != name ==> f in after && after[f] == before[f])
            <==> name + PART_SUFFIX !in before
  {
    var tmp := name + PART_SUFFIX;
    assert |tmp| > |name|;
    if tmp in before {
      assert tmp != name && tmp !in after;
    }
  }
}
