/** The GGUF header scan: a cursor over a binary file, proved against a header encoder. */
module Gguf {
  import opened Options
  import opened Common

  /** Bytes are integers from 0 to 255; text is kept as its bytes. */
  type Bytes = seq<int>

  const MAX_STRING := 4 * 1024 * 1024
  const MAX_ITEMS := 4096
  const STRING_KIND := 8
  const ARRAY_KIND := 9
  const DOT: int := 46

  function OfText(s: string): Bytes {
    seq(|s|, i requires 0 <= i < |s| => s[i] as int)
  }

  const MAGIC: Bytes := OfText("GGUF")
  const ARCHITECTURE: Bytes := OfText("general.architecture")
  const NEEDED: seq<Bytes> := [OfText("block_count"), OfText("attention.head_count"),
                               OfText("embedding_length"), OfText("attention.head_count_kv")]
  const WANTED: seq<Bytes> := [OfText("block_count"), OfText("attention.head_count"), OfText("attention.head_count_kv"),
                               OfText("attention.key_length"), OfText("attention.value_length"),
                               OfText("embedding_length"), OfText("context_length")]

  /** What a value is read as. Single floats keep their bits; arrays are skipped. */
  datatype Value = Number(n: int) | Float(bits: Bytes) | Flag(b: bool) | Text(s: Bytes) | Nothing

  /** `arch` is empty when the file states none; an unusable file gives NOTHING. */
  datatype Meta = Meta(fields: map<Bytes, Value>, arch: Bytes)

  const NOTHING := Meta(map[], [])

  // ---- little-endian numbers ----

  function Pow(w: nat): (p: int)
    ensures p > 0
  {
    if w == 0 then 1 else 256 * Pow(w - 1)
  }

  function FromLE(b: Bytes): int {
    if b == [] then 0 else b[0] + 256 * FromLE(b[1..])
  }

  function ToLE(n: int, w: nat): (b: Bytes)
    ensures |b| == w
    decreases w
  {
    if w == 0 then [] else [n % 256] + ToLE(n / 256, w - 1)
  }

  lemma {:induction false} LittleEndianRoundTrip(n: int, w: nat)
    requires 0 <= n < Pow(w)
    ensures FromLE(ToLE(n, w)) == n
  {
    if w > 0 {
      LittleEndianRoundTrip(n / 256, w - 1);
      assert ToLE(n, w)[1..] == ToLE(n / 256, w - 1);
    }
  }

  /** Two's complement. */
  function Signed(x: int, w: nat): int {
    if 2 * x >= Pow(w) then x - Pow(w) else x
  }

  function Width(kind: int): nat {
    if kind == 0 || kind == 1 || kind == 7 then 1
    else if kind == 2 || kind == 3 then 2
    else if kind == 4 || kind == 5 || kind == 6 then 4
    else if kind == 10 || kind == 11 || kind == 12 then 8
    else 0
  }

  predicate IsSigned(kind: int) {
    kind == 1 || kind == 3 || kind == 5 || kind == 11
  }

  function Decoded(kind: int, data: Bytes): Value {
    if kind == 6 then Float(data)
    else if kind == 7 then Flag(data != [] && data[0] != 0)
    else if IsSigned(kind) then Number(Signed(FromLE(data), |data|))
    else Number(FromLE(data))
  }

  // ---- what the scan computes ----

  function Take(f: Bytes, pos: nat, n: int): (r: Bytes)
    requires pos <= |f|
    ensures |r| <= |f| - pos
  {
    if n <= 0 then [] else f[pos..Min(pos + n, |f|)]
  }

  datatype Word = Word(text: Option<Bytes>, pos: nat)

  function WordAt(f: Bytes, pos: nat): (r: Word)
    requires pos <= |f|
    ensures pos <= r.pos <= |f|
  {
    var raw := Take(f, pos, 8);
    var at := pos + |raw|;
    if |raw| < 8 then Word(None, at)
    else if FromLE(raw) == 0 then Word(Some([]), at)
    else if FromLE(raw) > MAX_STRING then Word(None, at)
    else
      var data := Take(f, at, FromLE(raw));
      Word(if |data| < FromLE(raw) then None else Some(data), at + |data|)
  }

  /** A value and how many bytes it is counted as; `TooBig` ends the whole scan. */
  datatype Got = Got(value: Value, size: nat, pos: nat) | TooBig(pos: nat)

  datatype Sized = Sized(size: nat, pos: nat)

  function ItemAt(f: Bytes, pos: nat, kind: int): (r: Sized)
    requires pos <= |f|
    ensures pos <= r.pos <= |f|
  {
    if Width(kind) > 0 then
      var data := Take(f, pos, Width(kind));
      Sized(if |data| == Width(kind) then Width(kind) else 0, pos + |data|)
    else if kind == STRING_KIND then
      var w := WordAt(f, pos);
      Sized(if w.text.None? then 0 else 8 + |w.text.value|, w.pos)
    else if kind == ARRAY_KIND then
      var data := Take(f, pos, 12);
      Sized(if |data| == 12 then 16 else 0, pos + |data|)
    else Sized(0, pos)
  }

  function ItemsAt(f: Bytes, pos: nat, kind: int, n: nat, spent: nat): (r: Sized)
    requires pos <= |f|
    ensures pos <= r.pos <= |f|
    decreases n
  {
    if n == 0 then Sized(spent, pos)
    else
      var item := ItemAt(f, pos, kind);
      if item.size == 0 then Sized(spent, item.pos) else ItemsAt(f, item.pos, kind, n - 1, spent + item.size)
  }

  function ValueAt(f: Bytes, pos: nat): (r: Got)
    requires pos <= |f|
    ensures pos <= r.pos <= |f|
  {
    var raw := Take(f, pos, 4);
    var at := pos + |raw|;
    var kind := FromLE(raw);
    if |raw| < 4 then Got(Nothing, 0, at)
    else if Width(kind) > 0 then
      var data := Take(f, at, Width(kind));
      if |data| < Width(kind) then Got(Nothing, 4, at + |data|)
      else Got(Decoded(kind, data), 4 + Width(kind), at + |data|)
    else if kind == STRING_KIND then
      var w := WordAt(f, at);
      if w.text.None? then Got(Nothing, 12, w.pos) else Got(Text(w.text.value), 12 + |w.text.value|, w.pos)
    else if kind == ARRAY_KIND then
      var head := Take(f, at, 12);
      if |head| < 12 then Got(Nothing, 4, at + |head|)
      else if FromLE(head[4..]) > MAX_ITEMS then TooBig(at + 12)
      else
        var walked := ItemsAt(f, at + 12, FromLE(head[..4]), Natural(FromLE(head[4..])), 16);
        Got(Nothing, walked.size, walked.pos)
    else Got(Nothing, 4, at)
  }

  /** File bytes are never negative, so neither is a count. */
  function Natural(n: int): nat {
    if n < 0 then 0 else n
  }

  /** `str(value or "")`: `show` is how Python prints what is not text. */
  function ArchOf(v: Value, show: Value -> Bytes): Bytes {
    match v
    case Text(s) => s
    case Nothing => []
    case Number(n) => if n == 0 then [] else show(v)
    case Flag(b) => if b then show(v) else []
    case Float(bits) => if bits == [0, 0, 0, 0] || bits == [0, 0, 0, 128] then [] else show(v)
  }

  predicate StartsWith(name: Bytes, prefix: Bytes) {
    prefix <= name
  }

  /** `name.split(".", 1)[1]`: what follows the first dot. */
  function AfterDot(name: Bytes): Bytes {
    if name == [] then [] else if name[0] == DOT then name[1..] else AfterDot(name[1..])
  }

  /** What one pair adds to what has been found. */
  function Note(m: Meta, name: Bytes, v: Value, show: Value -> Bytes): Meta {
    if name == ARCHITECTURE then m.(arch := ArchOf(v, show))
    else if m.arch != [] && StartsWith(name, m.arch + [DOT]) && AfterDot(name) in WANTED
    then m.(fields := m.fields[AfterDot(name) := v])
    else m
  }

  predicate Complete(m: Meta) {
    m.arch != [] && forall key :: key in NEEDED ==> key in m.fields
  }

  datatype Limits = Limits(maxBytes: int, maxPairs: int)

  /** One pair of the header: where the scan stands after it, or what it ends with. */
  datatype Pace = More(pos: nat, consumed: nat, meta: Meta) | End(meta: Meta)

  function Step(f: Bytes, pos: nat, consumed: nat, m: Meta, lim: Limits, show: Value -> Bytes): (p: Pace)
    requires pos <= |f|
    ensures p.More? ==> pos <= p.pos <= |f|
  {
    var w := WordAt(f, pos);
    if w.text.None? || consumed + |w.text.value| + 8 > lim.maxBytes then End(m)
    else
      var v := ValueAt(f, w.pos);
      if v.TooBig? then End(m)
      else
        var next := Note(m, w.text.value, v.value, show);
        if Complete(next) then End(next) else More(v.pos, consumed + |w.text.value| + 8 + v.size, next)
  }

  function Scan(f: Bytes, pos: nat, n: nat, consumed: nat, m: Meta, lim: Limits, show: Value -> Bytes): Meta
    requires pos <= |f|
    decreases n
  {
    if n == 0 then m
    else
      match Step(f, pos, consumed, m, lim, show)
      case End(found) => found
      case More(at, seen, found) => Scan(f, at, n - 1, seen, found, lim, show)
  }

  lemma NothingLeft(f: Bytes, pos: nat, consumed: nat, m: Meta, lim: Limits, show: Value -> Bytes)
    requires pos <= |f|
    ensures Scan(f, pos, 0, consumed, m, lim, show) == m
  {
  }

  lemma ScanUnfolds(f: Bytes, pos: nat, n: nat, consumed: nat, m: Meta, lim: Limits, show: Value -> Bytes)
    requires pos <= |f| && n > 0
    ensures var p := Step(f, pos, consumed, m, lim, show);
            Scan(f, pos, n, consumed, m, lim, show)
            == if p.End? then p.meta else Scan(f, p.pos, n - 1, p.consumed, p.meta, lim, show)
  {
  }

  function Parsed(f: Bytes, lim: Limits, show: Value -> Bytes): Meta {
    var version, count := FromLE(Take(f, Min(4, |f|), 4)), FromLE(Take(f, Min(16, |f|), 8));
    if Take(f, 0, 4) != MAGIC || |f| < 24 || (version != 2 && version != 3) then NOTHING
    else if count <= 0 || count > lim.maxPairs then NOTHING
    else Scan(f, 24, count, 0, NOTHING, lim, show)
  }

  // ---- what is refused and where the scan stops, over the bytes ----

  /** A text: eight bytes of length, then the bytes. Too few bytes or too great a length give none. */
  lemma WordOverBytes(f: Bytes, pos: nat)
    requires pos <= |f|
    ensures WordAt(f, pos)
            == if pos + 8 > |f| then Word(None, |f|)
               else
                 var length := FromLE(f[pos..pos + 8]);
                 if length <= 0 then Word(Some([]), pos + 8)
                 else if length > 4194304 then Word(None, pos + 8)
                 else if pos + 8 + length > |f| then Word(None, |f|)
                 else Word(Some(f[pos + 8..pos + 8 + length]), pos + 8 + length)
  {
  }

  /** A value that breaks off, or is of no known kind, is nothing; what it is counted as does not
      depend on how much of it was there. */
  lemma BrokenValueIsNothing(f: Bytes, pos: nat)
    requires pos <= |f|
    ensures pos + 4 > |f| ==> ValueAt(f, pos) == Got(Nothing, 0, |f|)
    ensures pos + 4 <= |f| ==>
              var kind := FromLE(f[pos..pos + 4]);
              var width := if kind in {0, 1, 7} then 1 else if kind in {2, 3} then 2
                           else if kind in {4, 5, 6} then 4 else if kind in {10, 11, 12} then 8 else 0;
              && (width > 0 && pos + 4 + width > |f| ==> ValueAt(f, pos) == Got(Nothing, 4, |f|))
              && (width > 0 && pos + 4 + width <= |f| ==>
                    ValueAt(f, pos) == Got(Decoded(kind, f[pos + 4..pos + 4 + width]), 4 + width, pos + 4 + width))
              && (kind == 8 && WordAt(f, pos + 4).text.None? ==>
                    ValueAt(f, pos) == Got(Nothing, 12, WordAt(f, pos + 4).pos))
              && (kind == 9 && pos + 16 > |f| ==> ValueAt(f, pos) == Got(Nothing, 4, |f|))
              && (width == 0 && kind != 8 && kind != 9 ==> ValueAt(f, pos) == Got(Nothing, 4, pos + 4))
  {
    hide FromLE, Decoded, ItemsAt, WordAt;
  }

  /** The items of an array are walked until one cannot be read, which is counted as nothing. */
  lemma ItemsOverBytes(f: Bytes, pos: nat, kind: int, n: nat, spent: nat)
    requires pos <= |f|
    ensures n == 0 ==> ItemsAt(f, pos, kind, n, spent) == Sized(spent, pos)
    ensures n > 0 && kind == 9 ==>
              ItemsAt(f, pos, kind, n, spent)
              == if pos + 12 > |f| then Sized(spent, |f|) else ItemsAt(f, pos + 12, kind, n - 1, spent + 16)
    ensures n > 0 && kind == 8 && WordAt(f, pos).text.None? ==>
              ItemsAt(f, pos, kind, n, spent) == Sized(spent, WordAt(f, pos).pos)
    ensures n > 0 && Width(kind) > 0 && pos + Width(kind) > |f| ==>
              ItemsAt(f, pos, kind, n, spent) == Sized(spent, |f|)
    ensures n > 0 && Width(kind) == 0 && kind != 8 && kind != 9 ==>
              ItemsAt(f, pos, kind, n, spent) == Sized(spent, pos)
  {
    hide WordAt;
  }

  /** A name that cannot be read, or that passes the limit on bytes, ends the scan before its value. */
  lemma ScanStopsAtName(f: Bytes, pos: nat, consumed: nat, m: Meta, lim: Limits, show: Value -> Bytes)
    requires pos <= |f|
    requires var w := WordAt(f, pos); w.text.None? || consumed + |w.text.value| + 8 > lim.maxBytes
    ensures Step(f, pos, consumed, m, lim, show) == End(m)
  {
  }

  /** Files that are refused outright: too short, of another format or version, or with no pairs
      or too many. */
  lemma RefusedFiles(f: Bytes, lim: Limits, show: Value -> Bytes)
    requires |f| < 24 || f[..4] != [0x47, 0x47, 0x55, 0x46] || FromLE(f[4..8]) !in {2, 3}
             || FromLE(f[16..24]) <= 0 || FromLE(f[16..24]) > lim.maxPairs
    ensures Parsed(f, lim, show) == Meta(map[], [])
  {
    hide Scan, FromLE;
    assert MAGIC == [0x47, 0x47, 0x55, 0x46];
  }

  /** The architecture is what Python prints of a value that is not false. */
  lemma ArchitectureIs(v: Value, show: Value -> Bytes)
    ensures ArchOf(v, show)
            == if v.Text? then v.s
               else if v == Nothing || v == Number(0) || v == Flag(false) then []
               else if v == Float([0, 0, 0, 0]) || v == Float([0, 0, 0, 128]) then []
               else show(v)
  {
  }

  // ---- the reader ----

  class Reader {
    const file: Bytes
    var pos: nat

    ghost predicate Valid()
      reads this
    {
      pos <= |file|
    }

    constructor (file: Bytes)
      ensures this.file == file && pos == 0 && Valid()
    {
      this.file := file;
      pos := 0;
    }

    method Read(n: int) returns (data: Bytes)
      requires Valid()
      modifies this`pos
      ensures Valid() && data == Take(file, old(pos), n) && pos == old(pos) + |data|
    {
      data := if n <= 0 then [] else file[pos..Min(pos + n, |file|)];
      pos := pos + |data|;
    }

    method ReadString() returns (text: Option<Bytes>)
      requires Valid()
      modifies this`pos
      ensures Valid() && WordAt(file, old(pos)) == Word(text, pos)
    {
      var raw := Read(8);
      if |raw| < 8 {
        return None;
      }
      var length := FromLE(raw);
      if length == 0 {
        return Some([]);
      }
      if length > MAX_STRING {
        return None;
      }
      var data := Read(length);
      if |data| < length {
        return None;
      }
      return Some(data);
    }

    method ItemSize(kind: int) returns (size: nat)
      requires Valid()
      modifies this`pos
      ensures Valid() && ItemAt(file, old(pos), kind) == Sized(size, pos)
    {
      if Width(kind) > 0 {
        var data := Read(Width(kind));
        return if |data| == Width(kind) then Width(kind) else 0;
      }
      if kind == STRING_KIND {
        var text := ReadString();
        return if text.None? then 0 else 8 + |text.value|;
      }
      if kind == ARRAY_KIND {
        var data := Read(12);
        return if |data| == 12 then 16 else 0;
      }
      return 0;
    }

    method SkipItems(kind: int, items: nat) returns (spent: nat)
      requires Valid()
      modifies this`pos
      ensures Valid() && ItemsAt(file, old(pos), kind, items, 16) == Sized(spent, pos)
    {
      spent := 16;
      var left := items;
      while left > 0
        invariant Valid()
        invariant ItemsAt(file, old(pos), kind, items, 16) == ItemsAt(file, pos, kind, left, spent)
      {
        var size := ItemSize(kind);
        spent := spent + size;
        if size == 0 {
          return;
        }
        left := left - 1;
      }
    }

    /** `stop` is the exception that ends the scan. */
    method ReadValue() returns (value: Value, size: nat, stop: bool)
      requires Valid()
      modifies this`pos
      ensures Valid() && ValueAt(file, old(pos)) == if stop then TooBig(pos) else Got(value, size, pos)
    {
      hide FromLE, Decoded, WordAt, ItemsAt;
      value, size, stop := Nothing, 0, false;
      var raw := Read(4);
      if |raw| < 4 {
        return;
      }
      var kind := FromLE(raw);
      size := 4;
      if Width(kind) > 0 {
        var data := Read(Width(kind));
        if |data| < Width(kind) {
          return;
        }
        return Decoded(kind, data), 4 + Width(kind), false;
      }
      if kind == STRING_KIND {
        var text := ReadString();
        if text.None? {
          return Nothing, 12, false;
        }
        return Text(text.value), 12 + |text.value|, false;
      }
      if kind == ARRAY_KIND {
        var head := Read(12);
        if |head| < 12 {
          return;
        }
        if FromLE(head[4..]) > MAX_ITEMS {
          return Nothing, 0, true;
        }
        size := SkipItems(FromLE(head[..4]), Natural(FromLE(head[4..])));
      }
    }

    method Parse(lim: Limits, show: Value -> Bytes) returns (meta: Meta)
      requires pos == 0
      modifies this`pos
      ensures meta == Parsed(file, lim, show)
    {
      hide Scan, FromLE;
      var magic := Read(4);
      if magic != MAGIC {
        return NOTHING;
      }
      var version, tensors, count;
      version := Read(4);
      if FromLE(version) != 2 && FromLE(version) != 3 {
        return NOTHING;
      }
      tensors := Read(8);
      count := Read(8);
      if |count| < 8 || FromLE(count) <= 0 || FromLE(count) > lim.maxPairs {
        return NOTHING;
      }
      meta := ScanPairs(FromLE(count), lim, show);
    }

    method ScanPairs(count: nat, lim: Limits, show: Value -> Bytes) returns (meta: Meta)
      requires Valid()
      modifies this`pos
      ensures meta == Scan(file, old(pos), count, 0, NOTHING, lim, show)
    {
      hide Scan, Step;
      meta := NOTHING;
      var consumed, left := 0, count;
      ghost var all := Scan(file, pos, count, 0, NOTHING, lim, show);
      while left > 0
        invariant Valid() && consumed >= 0 && all == Scan(file, pos, left, consumed, meta, lim, show)
      {
        var done;
        ScanUnfolds(file, pos, left, consumed, meta, lim, show);
        meta, consumed, done := ScanPair(meta, consumed, lim, show);
        if done {
          return;
        }
        left := left - 1;
      }
      NothingLeft(file, pos, consumed, meta, lim, show);
    }

    /** The body of the scan's loop. */
    method ScanPair(m: Meta, before: nat, lim: Limits, show: Value -> Bytes)
      returns (meta: Meta, consumed: nat, done: bool)
      requires Valid()
      modifies this`pos
      ensures Valid()
      ensures Step(file, old(pos), before, m, lim, show) == if done then End(meta) else More(pos, consumed, meta)
    {
      hide Note, Complete, WordAt, ValueAt;
      meta, consumed, done := m, before, true;
      var name := ReadString();
      if name.None? {
        return;
      }
      consumed := consumed + |name.value| + 8;
      if consumed > lim.maxBytes {
        return;
      }
      var value, size, stop := ReadValue();
      if stop {
        return;
      }
      consumed := consumed + size;
      meta := Note(m, name.value, value, show);
      done := Complete(meta);
    }
  }
}
