/** A GGUF header encoder, and the proof that the scan inverts it. */
module GgufRoundTrip {
  import opened Options
  import opened Gguf

  /** One array item: fixed-width data, or text. */
  datatype Item = Fixed(data: Bytes) | Chars(text: Bytes)

  datatype Field =
    | Whole(kind: int, n: int)
    | Bool(b: bool)
    | Single(bits: Bytes)
    | Double(bits: Bytes)
    | Str(s: Bytes)
    | List(kind: int, items: seq<Item>)

  datatype Pair = Pair(name: Bytes, value: Field)

  // ---- the encoder ----

  /** The format's table of fixed widths, and its signed kinds. */
  function Size(kind: int): nat {
    if kind in {0, 1, 7} then 1 else if kind in {2, 3} then 2
    else if kind in {4, 5, 6} then 4 else if kind in {10, 11, 12} then 8 else 0
  }

  lemma KindsAre(kind: int)
    ensures Width(kind) == Size(kind) && (IsSigned(kind) <==> kind in {1, 3, 5, 11})
  {
  }

  predicate InRange(kind: int, n: int) {
    var p := Pow(Size(kind));
    if kind in {1, 3, 5, 11} then -p <= 2 * n < p else 0 <= n < p
  }

  predicate ItemOk(kind: int, i: Item) {
    match i
    case Fixed(data) => Size(kind) > 0 && |data| == Size(kind)
    case Chars(text) => kind == 8 && |text| <= 4194304
  }

  /** What the format can hold and the scan is willing to walk. */
  ghost predicate FieldOk(v: Field) {
    match v
    case Whole(kind, n) => kind in {0, 1, 2, 3, 4, 5, 10, 11} && InRange(kind, n)
    case Bool(_) => true
    case Single(bits) => |bits| == 4
    case Double(bits) => |bits| == 8
    case Str(s) => |s| <= 4194304
    case List(kind, items) =>
      && 0 <= kind < Pow(4) && kind != 9 && |items| <= 4096
      && ItemsOk(kind, items)
  }

  ghost predicate ItemsOk(kind: int, items: seq<Item>) {
    forall i {:trigger items[i]} :: 0 <= i < |items| ==> ItemOk(kind, items[i])
  }

  function EncodeWord(s: Bytes): Bytes {
    ToLE(|s|, 8) + s
  }

  function EncodeItem(i: Item): Bytes {
    match i
    case Fixed(data) => data
    case Chars(text) => EncodeWord(text)
  }

  function EncodeItems(items: seq<Item>): Bytes {
    if items == [] then [] else EncodeItem(items[0]) + EncodeItems(items[1..])
  }

  function Unsigned(kind: int, n: int): int {
    if n < 0 then n + Pow(Size(kind)) else n
  }

  function EncodeField(v: Field): Bytes {
    match v
    case Whole(kind, n) => ToLE(kind, 4) + ToLE(Unsigned(kind, n), Size(kind))
    case Bool(b) => ToLE(7, 4) + [if b then 1 else 0]
    case Single(bits) => ToLE(6, 4) + bits
    case Double(bits) => ToLE(12, 4) + bits
    case Str(s) => ToLE(8, 4) + EncodeWord(s)
    case List(kind, items) => ToLE(9, 4) + (ToLE(kind, 4) + ToLE(|items|, 8)) + EncodeItems(items)
  }

  function EncodePairs(pairs: seq<Pair>): Bytes {
    if pairs == [] then []
    else EncodeWord(pairs[0].name) + EncodeField(pairs[0].value) + EncodePairs(pairs[1..])
  }

  /** `count` is the number of pairs the header declares, `tensors` its unused eight bytes. */
  function EncodeHeader(version: int, tensors: Bytes, count: int, pairs: seq<Pair>): Bytes {
    [0x47, 0x47, 0x55, 0x46] + ToLE(version, 4) + tensors + ToLE(count, 8) + EncodePairs(pairs)
  }

  /** What the scan reports for a field. The code lists float64 among the fixed-width kinds,
      so it reads one as an unsigned whole number. */
  function ValueOf(v: Field): Value {
    match v
    case Whole(_, n) => Number(n)
    case Bool(b) => Flag(b)
    case Single(bits) => Float(bits)
    case Double(bits) => Number(FromLE(bits))
    case Str(s) => Text(s)
    case List(_, _) => Nothing
  }

  // ---- reading what was encoded ----

  /** `s` stands in the file at `pos`. */
  ghost predicate At(f: Bytes, pos: nat, s: Bytes) {
    pos + |s| <= |f| && f[pos..pos + |s|] == s
  }

  lemma AtSplits(f: Bytes, pos: nat, a: Bytes, b: Bytes)
    requires At(f, pos, a + b)
    ensures At(f, pos, a) && At(f, pos + |a|, b)
  {
    assert forall i {:trigger (a + b)[i]} :: 0 <= i < |a + b| ==> f[pos + i] == f[pos..pos + |a + b|][i] == (a + b)[i];
    forall i | 0 <= i < |a| ensures f[pos + i] == a[i] {
      assert (a + b)[i] == a[i];
    }
    forall i | 0 <= i < |b| ensures f[pos + |a| + i] == b[i] {
      assert (a + b)[|a| + i] == b[i];
    }
  }

  lemma EndsBefore(f: Bytes, pos: nat, s: Bytes)
    requires At(f, pos, s)
    ensures pos + |s| <= |f|
  {
  }

  lemma TakeAt(f: Bytes, pos: nat, s: Bytes)
    requires At(f, pos, s)
    ensures Take(f, pos, |s|) == s
  {
  }

  lemma PowersAre()
    ensures Pow(1) == 256 && Pow(2) == 65536 && Pow(4) == 4294967296 && Pow(8) == 18446744073709551616
  {
    assert Pow(0) == 1;
    assert Pow(1) == 256 && Pow(2) == 65536 && Pow(3) == 16777216;
    assert Pow(4) == 4294967296;
    assert Pow(5) == 1099511627776 && Pow(6) == 281474976710656 && Pow(7) == 72057594037927936;
  }

  lemma WordReadsBack(f: Bytes, pos: nat, s: Bytes)
    requires At(f, pos, EncodeWord(s)) && |s| <= MAX_STRING
    ensures WordAt(f, pos) == Word(Some(s), pos + 8 + |s|)
  {
    AtSplits(f, pos, ToLE(|s|, 8), s);
    TakeAt(f, pos, ToLE(|s|, 8));
    TakeAt(f, pos + 8, s);
    PowersAre();
    LittleEndianRoundTrip(|s|, 8);
  }

  lemma {:induction false} ItemsReadBack(f: Bytes, pos: nat, kind: int, items: seq<Item>, spent: nat)
    requires At(f, pos, EncodeItems(items))
    requires ItemsOk(kind, items)
    ensures ItemsAt(f, pos, kind, |items|, spent)
            == Sized(spent + |EncodeItems(items)|, pos + |EncodeItems(items)|)
    decreases |items|
  {
    hide ItemAt, ItemOk, EncodeItem, At;
    assert ItemsOk(kind, items);
    if items != [] {
      var first := EncodeItem(items[0]);
      AtSplits(f, pos, first, EncodeItems(items[1..]));
      ItemReadsBack(f, pos, kind, items[0]);
      ItemsUnfold(f, pos, kind, |items|, spent);
      ItemsReadBack(f, pos + |first|, kind, items[1..], spent + |first|);
    }
  }

  lemma ItemsUnfold(f: Bytes, pos: nat, kind: int, n: nat, spent: nat)
    requires pos <= |f| && n > 0 && ItemAt(f, pos, kind).size > 0
    ensures var item := ItemAt(f, pos, kind);
            ItemsAt(f, pos, kind, n, spent) == ItemsAt(f, item.pos, kind, n - 1, spent + item.size)
  {
  }

  lemma ItemReadsBack(f: Bytes, pos: nat, kind: int, i: Item)
    requires At(f, pos, EncodeItem(i)) && ItemOk(kind, i)
    ensures ItemAt(f, pos, kind) == Sized(|EncodeItem(i)|, pos + |EncodeItem(i)|) && |EncodeItem(i)| > 0
  {
    match i
    case Fixed(data) =>
      KindsAre(kind);
      TakeAt(f, pos, data);
    case Chars(text) => WordReadsBack(f, pos, text);
  }

  lemma KindReadsBack(f: Bytes, pos: nat, kind: int, rest: Bytes)
    requires At(f, pos, ToLE(kind, 4) + rest) && 0 <= kind < 13
    ensures Take(f, pos, 4) == ToLE(kind, 4) && FromLE(Take(f, pos, 4)) == kind && At(f, pos + 4, rest)
  {
    AtSplits(f, pos, ToLE(kind, 4), rest);
    TakeAt(f, pos, ToLE(kind, 4));
    PowersAre();
    LittleEndianRoundTrip(kind, 4);
  }

  lemma WholeReadsBack(kind: int, n: int)
    requires kind in {0, 1, 2, 3, 4, 5, 10, 11} && InRange(kind, n)
    ensures Decoded(kind, ToLE(Unsigned(kind, n), Size(kind))) == Number(n)
  {
    KindsAre(kind);
    LittleEndianRoundTrip(Unsigned(kind, n), Size(kind));
  }

  lemma FixedReadsBack(f: Bytes, pos: nat, kind: int, data: Bytes)
    requires 0 <= kind < 13 && Size(kind) > 0 && |data| == Size(kind) && At(f, pos, ToLE(kind, 4) + data)
    ensures ValueAt(f, pos) == Got(Decoded(kind, data), 4 + |data|, pos + 4 + |data|)
  {
    KindsAre(kind);
    KindReadsBack(f, pos, kind, data);
    TakeAt(f, pos + 4, data);
  }

  lemma TextReadsBack(f: Bytes, pos: nat, s: Bytes)
    requires |s| <= MAX_STRING && At(f, pos, ToLE(STRING_KIND, 4) + EncodeWord(s))
    ensures ValueAt(f, pos) == Got(Text(s), 12 + |s|, pos + 12 + |s|)
  {
    KindReadsBack(f, pos, STRING_KIND, EncodeWord(s));
    WordReadsBack(f, pos + 4, s);
  }

  lemma ListReadsBack(f: Bytes, pos: nat, kind: int, items: seq<Item>)
    requires FieldOk(List(kind, items)) && At(f, pos, EncodeField(List(kind, items)))
    ensures ValueAt(f, pos) == Got(Nothing, |EncodeField(List(kind, items))|, pos + |EncodeField(List(kind, items))|)
  {
    hide ToLE, FromLE, At, WordAt, Decoded, EncodeItems, ItemsAt, ItemsOk;
    var head := ToLE(kind, 4) + ToLE(|items|, 8);
    AtSplits(f, pos, ToLE(ARRAY_KIND, 4) + head, EncodeItems(items));
    KindReadsBack(f, pos, ARRAY_KIND, head);
    TakeAt(f, pos + 4, head);
    assert head[..4] == ToLE(kind, 4) && head[4..] == ToLE(|items|, 8);
    PowersAre();
    LittleEndianRoundTrip(kind, 4);
    LittleEndianRoundTrip(|items|, 8);
    ItemsReadBack(f, pos + 16, kind, items, 16);
  }

  /** Reading an encoded field gives its value and leaves the cursor on the byte after it,
      and the field is counted as exactly the bytes it takes. */
  lemma FieldReadsBack(f: Bytes, pos: nat, v: Field)
    requires FieldOk(v) && At(f, pos, EncodeField(v))
    ensures ValueAt(f, pos) == Got(ValueOf(v), |EncodeField(v)|, pos + |EncodeField(v)|)
  {
    match v
    case Whole(kind, n) =>
      FixedReadsBack(f, pos, kind, ToLE(Unsigned(kind, n), Size(kind)));
      WholeReadsBack(kind, n);
    case Bool(b) => FixedReadsBack(f, pos, 7, [if b then 1 else 0]);
    case Single(bits) => FixedReadsBack(f, pos, 6, bits);
    case Double(bits) => FixedReadsBack(f, pos, 12, bits);
    case Str(s) => TextReadsBack(f, pos, s);
    case List(kind, items) => ListReadsBack(f, pos, kind, items);
  }

  // ---- what a header says ----

  /** What a pair adds: the architecture, or a wanted key under the architecture's own prefix. */
  ghost function Added(m: Meta, p: Pair, show: Value -> Bytes): Meta {
    if p.name == ARCHITECTURE then m.(arch := ArchOf(ValueOf(p.value), show))
    else if m.arch != [] && exists key :: key in WANTED && p.name == m.arch + [DOT] + key
    then m.(fields := m.fields[p.name[|m.arch| + 1..] := ValueOf(p.value)])
    else m
  }

  /** The wanted keys of a list of pairs. */
  ghost function Geometry(pairs: seq<Pair>, show: Value -> Bytes): Meta {
    if pairs == [] then NOTHING else Added(Geometry(pairs[..|pairs| - 1], show), pairs[|pairs| - 1], show)
  }

  /** The shortest prefix that states everything needed, or the whole list. */
  ghost function Enough(pairs: seq<Pair>, show: Value -> Bytes): nat
    ensures Enough(pairs, show) <= |pairs|
  {
    if pairs == [] then 0
    else
      var n := Enough(pairs[..|pairs| - 1], show);
      if n < |pairs| - 1 || (n > 0 && Complete(Geometry(pairs[..n], show))) then n else |pairs|
  }

  /** `Enough` is what it says: no shorter prefix is complete, and it is itself complete
      unless it is the whole list. */
  lemma {:induction false} EnoughIsShortest(pairs: seq<Pair>, show: Value -> Bytes)
    ensures var n := Enough(pairs, show);
            && (forall k :: 0 < k < n ==> !Complete(Geometry(pairs[..k], show)))
            && (n < |pairs| ==> n > 0 && Complete(Geometry(pairs[..n], show)))
  {
    if pairs != [] {
      var init := pairs[..|pairs| - 1];
      EnoughIsShortest(init, show);
      forall k | 0 <= k <= |init| ensures init[..k] == pairs[..k] {
      }
    }
  }

  // ---- the same, over the names in the list ----

  predicate WantedKey(key: Bytes) {
    || key == OfText("block_count") || key == OfText("attention.head_count")
    || key == OfText("attention.head_count_kv") || key == OfText("attention.key_length")
    || key == OfText("attention.value_length") || key == OfText("embedding_length")
    || key == OfText("context_length")
  }

  predicate NeededKey(key: Bytes) {
    || key == OfText("block_count") || key == OfText("attention.head_count")
    || key == OfText("embedding_length") || key == OfText("attention.head_count_kv")
  }

  /** Pair `i`, and no other, states the architecture; its name is a text without a dot. */
  ghost predicate Tells(pairs: seq<Pair>, i: int, a: Bytes) {
    && 0 <= i < |pairs| && pairs[i] == Pair(OfText("general.architecture"), Str(a)) && a != [] && 46 !in a
    && forall k :: 0 <= k < |pairs| && k != i ==> pairs[k].name != OfText("general.architecture")
  }

  /** Pair `j`, after it, states this key under the architecture's prefix. */
  ghost predicate States(pairs: seq<Pair>, i: int, a: Bytes, key: Bytes, j: int) {
    0 <= i < j < |pairs| && pairs[j].name == a + [46] + key
  }

  /** And none after it does so again. */
  ghost predicate StatesLast(pairs: seq<Pair>, i: int, a: Bytes, key: Bytes, j: int) {
    States(pairs, i, a, key, j) && forall k :: States(pairs, i, a, key, k) ==> k <= j
  }

  /** What is reported: the architecture, and for each of the seven keys that is stated after it
      the value it was stated with last. */
  ghost predicate Reports(m: Meta, pairs: seq<Pair>, i: int, a: Bytes) {
    && m.arch == a
    && (forall key :: key in m.fields <==> WantedKey(key) && exists j :: States(pairs, i, a, key, j))
    && forall key, j :: key in m.fields && StatesLast(pairs, i, a, key, j) ==> m.fields[key] == ValueOf(pairs[j].value)
  }

  lemma {:induction false} NoArchitectureNothing(pairs: seq<Pair>, show: Value -> Bytes)
    requires forall k :: 0 <= k < |pairs| ==> pairs[k].name != OfText("general.architecture")
    ensures Geometry(pairs, show) == NOTHING
  {
    if pairs != [] {
      NoArchitectureNothing(pairs[..|pairs| - 1], show);
    }
  }

  lemma KeysAre(key: Bytes)
    ensures key in WANTED <==> WantedKey(key)
    ensures key in NEEDED <==> NeededKey(key)
  {
  }

  lemma AddedReports(m: Meta, pairs: seq<Pair>, show: Value -> Bytes, i: int, a: Bytes)
    requires Tells(pairs, i, a) && i < |pairs| - 1 && Reports(m, pairs[..|pairs| - 1], i, a)
    ensures Reports(Added(m, pairs[|pairs| - 1], show), pairs, i, a)
  {
    hide OfText, ValueOf, ArchOf, WantedKey;
    var n := |pairs| - 1;
    var init, p := pairs[..n], pairs[n];
    var t := Added(m, p, show);
    forall key ensures key in WANTED <==> WantedKey(key) {
      KeysAre(key);
    }
    forall key ensures key in t.fields <==> key in m.fields || (WantedKey(key) && p.name == a + [46] + key) {
      UnderPrefix(p.name, a, key);
    }
    forall key, j | key in t.fields && StatesLast(pairs, i, a, key, j)
      ensures t.fields[key] == ValueOf(pairs[j].value)
    {
      UnderPrefix(p.name, a, key);
      LastInPrefix(pairs, i, a, key, j);
      if j < n {
        assert key in m.fields && m.fields[key] == ValueOf(init[j].value);
        assert p.name != a + [46] + key;
      }
    }
    assert t.arch == a;
    forall key ensures key in t.fields <==> WantedKey(key) && exists j :: States(pairs, i, a, key, j) {
      StatedOneMore(pairs, i, a, key);
    }
  }

  lemma StatedOneMore(pairs: seq<Pair>, i: int, a: Bytes, key: Bytes)
    requires 0 <= i < |pairs| - 1
    ensures var n := |pairs| - 1;
            (exists j :: States(pairs, i, a, key, j))
            <==> (exists j :: States(pairs[..n], i, a, key, j)) || pairs[n].name == a + [46] + key
  {
    var n := |pairs| - 1;
    assert pairs[n].name == a + [46] + key <==> States(pairs, i, a, key, n);
    forall j
      ensures States(pairs, i, a, key, j) <==>
                States(pairs[..n], i, a, key, j) || (j == n && States(pairs, i, a, key, n))
    {
    }
  }

  lemma LastInPrefix(pairs: seq<Pair>, i: int, a: Bytes, key: Bytes, j: int)
    requires StatesLast(pairs, i, a, key, j)
    ensures var n := |pairs| - 1;
            && 0 <= i < j <= n && (j == n <==> pairs[n].name == a + [46] + key)
            && (j < n ==> StatesLast(pairs[..n], i, a, key, j) && pairs[..n][j] == pairs[j])
  {
    var n := |pairs| - 1;
    assert pairs[n].name == a + [46] + key ==> States(pairs, i, a, key, n);
    forall k ensures States(pairs[..n], i, a, key, k) ==> States(pairs, i, a, key, k) {
    }
  }

  lemma UnderPrefix(name: Bytes, a: Bytes, key: Bytes)
    ensures name == a + [46] + key ==> name[|a| + 1..] == key
  {
  }

  lemma {:induction false} GeometryReports(pairs: seq<Pair>, show: Value -> Bytes, i: int, a: Bytes)
    requires Tells(pairs, i, a)
    ensures Reports(Geometry(pairs, show), pairs, i, a)
  {
    var init := pairs[..|pairs| - 1];
    if i == |init| {
      NoArchitectureNothing(init, show);
    } else {
      assert Tells(init, i, a);
      GeometryReports(init, show, i, a);
      AddedReports(Geometry(init, show), pairs, show, i, a);
    }
  }

  /** Every key the scan waits for is stated. */
  ghost predicate AllNeeded(pairs: seq<Pair>, i: int, a: Bytes) {
    forall key :: NeededKey(key) ==> exists j :: States(pairs, i, a, key, j)
  }

  lemma CompleteIff(pairs: seq<Pair>, show: Value -> Bytes, i: int, a: Bytes)
    requires Tells(pairs, i, a)
    ensures Complete(Geometry(pairs, show)) <==> AllNeeded(pairs, i, a)
  {
    hide Geometry, OfText;
    GeometryReports(pairs, show, i, a);
    forall key ensures (key in NEEDED <==> NeededKey(key)) && (NeededKey(key) ==> WantedKey(key)) {
      KeysAre(key);
    }
  }

  // ---- dots ----

  lemma {:induction false} AfterDotIs(arch: Bytes, key: Bytes)
    ensures DOT !in arch ==> AfterDot(arch + [DOT] + key) == key
    ensures |AfterDot(arch + [DOT] + key)| >= |key|
    ensures DOT in arch ==> |AfterDot(arch + [DOT] + key)| > |key|
  {
    var name := arch + [DOT] + key;
    if arch == [] {
      assert name[1..] == key;
    } else {
      assert name[1..] == arch[1..] + [DOT] + key;
      AfterDotIs(arch[1..], key);
      assert arch == [arch[0]] + arch[1..];
    }
  }

  /** Splitting at the first dot finds the key under an architecture's prefix iff the
      architecture's own name has no dot. */
  lemma SuffixIsRightIff(arch: Bytes, key: Bytes)
    ensures AfterDot(arch + [DOT] + key) == key <==> DOT !in arch
  {
    AfterDotIs(arch, key);
  }

  lemma NoteIsGeometry(m: Meta, p: Pair, show: Value -> Bytes)
    requires DOT !in m.arch
    ensures Note(m, p.name, ValueOf(p.value), show) == Added(m, p, show)
  {
    var prefix := m.arch + [DOT];
    if prefix <= p.name {
      var key := p.name[|prefix|..];
      assert p.name == prefix + key;
      AfterDotIs(m.arch, key);
    }
    forall key | p.name == prefix + key ensures prefix <= p.name && p.name[|prefix|..] == key {
    }
  }

  // ---- the round trip ----

  ghost predicate PairOk(p: Pair, show: Value -> Bytes) {
    && |p.name| <= 4194304 && FieldOk(p.value)
    && (p.name == ARCHITECTURE ==> DOT !in ArchOf(ValueOf(p.value), show))
  }

  ghost predicate PairsOk(pairs: seq<Pair>, show: Value -> Bytes) {
    forall i {:trigger pairs[i]} :: 0 <= i < |pairs| ==> PairOk(pairs[i], show)
  }

  lemma {:induction false} ArchHasNoDot(pairs: seq<Pair>, show: Value -> Bytes)
    requires PairsOk(pairs, show)
    ensures DOT !in Geometry(pairs, show).arch
  {
    if pairs != [] {
      ArchHasNoDot(pairs[..|pairs| - 1], show);
      assert PairOk(pairs[|pairs| - 1], show);
    }
  }

  /** One pair: the cursor lands on the next one, unless everything needed is now there. */
  lemma StepReadsBack(f: Bytes, pos: nat, consumed: nat, m: Meta, p: Pair, lim: Limits, show: Value -> Bytes)
    requires PairOk(p, show) && DOT !in m.arch
    requires At(f, pos, EncodeWord(p.name) + EncodeField(p.value))
    requires consumed + |p.name| + 8 + |EncodeField(p.value)| <= lim.maxBytes
    ensures var next := Note(m, p.name, ValueOf(p.value), show);
            var size := |p.name| + 8 + |EncodeField(p.value)|;
            Step(f, pos, consumed, m, lim, show)
            == if Complete(next) then End(next) else More(pos + size, consumed + size, next)
  {
    hide WordAt, ValueAt, EncodeField, FieldOk, Note, Complete, At, ValueOf;
    AtSplits(f, pos, EncodeWord(p.name), EncodeField(p.value));
    WordReadsBack(f, pos, p.name);
    FieldReadsBack(f, pos + |EncodeWord(p.name)|, p.value);
  }

  lemma ScanOneMore(f: Bytes, pos: nat, n: nat, consumed: nat, m: Meta, p: Pair, lim: Limits, show: Value -> Bytes)
    requires PairOk(p, show) && DOT !in m.arch && n > 0
    requires At(f, pos, EncodeWord(p.name) + EncodeField(p.value))
    requires consumed + |EncodeWord(p.name) + EncodeField(p.value)| <= lim.maxBytes
    ensures var next := Note(m, p.name, ValueOf(p.value), show);
            var size := |EncodeWord(p.name) + EncodeField(p.value)|;
            Scan(f, pos, n, consumed, m, lim, show)
            == if Complete(next) then next else Scan(f, pos + size, n - 1, consumed + size, next, lim, show)
  {
    hide Step, Note, Complete, At, EncodeField, PairOk;
    EndsBefore(f, pos, EncodeWord(p.name) + EncodeField(p.value));
    StepReadsBack(f, pos, consumed, m, p, lim, show);
    ScanUnfolds(f, pos, n, consumed, m, lim, show);
  }

  /** The bytes the pairs are counted as: exactly what they take. */
  lemma {:induction false} EncodePairsAppends(pairs: seq<Pair>, p: Pair)
    ensures EncodePairs(pairs + [p]) == EncodePairs(pairs) + (EncodeWord(p.name) + EncodeField(p.value))
  {
    hide EncodeWord, EncodeField;
    var step := EncodeWord(p.name) + EncodeField(p.value);
    if pairs == [] {
      assert pairs + [p] == [p] && [p][1..] == [];
      assert EncodePairs([p]) == step + EncodePairs([]);
    } else {
      assert (pairs + [p])[1..] == pairs[1..] + [p];
      EncodePairsAppends(pairs[1..], p);
      var first := EncodeWord(pairs[0].name) + EncodeField(pairs[0].value);
      assert EncodePairs(pairs + [p]) == first + (EncodePairs(pairs[1..]) + step);
    }
  }

  /** The first complete geometry among `pairs`, or what scanning on from behind them finds. */
  ghost function ScannedPast(f: Bytes, pos: nat, n: nat, pairs: seq<Pair>, lim: Limits, show: Value -> Bytes): Meta
    requires pos + |EncodePairs(pairs)| <= |f| && |pairs| <= n
  {
    var k := Enough(pairs, show);
    if k > 0 && Complete(Geometry(pairs[..k], show)) then Geometry(pairs[..k], show)
    else Scan(f, pos + |EncodePairs(pairs)|, n - |pairs|, |EncodePairs(pairs)|, Geometry(pairs, show), lim, show)
  }

  /** Scanning `pairs` either ends with the first complete geometry, or stands right after
      them with everything they say. */
  lemma {:induction false} ScanReadsBack(f: Bytes, pos: nat, n: nat, pairs: seq<Pair>, lim: Limits,
                                         show: Value -> Bytes)
    requires At(f, pos, EncodePairs(pairs)) && |pairs| <= n && PairsOk(pairs, show)
    requires |EncodePairs(pairs)| <= lim.maxBytes
    ensures Scan(f, pos, n, 0, NOTHING, lim, show) == ScannedPast(f, pos, n, pairs, lim, show)
    decreases |pairs|
  {
    hide Scan;
    if pairs == [] {
      assert Geometry(pairs, show) == NOTHING && EncodePairs(pairs) == [];
    } else {
      InitOk(pairs, show);
      EncodePairsInit(f, pos, pairs);
      ScanReadsBack(f, pos, n, pairs[..|pairs| - 1], lim, show);
      ScannedPastOneMore(f, pos, n, pairs, lim, show);
    }
  }

  lemma EncodePairsInit(f: Bytes, pos: nat, pairs: seq<Pair>)
    requires pairs != [] && At(f, pos, EncodePairs(pairs))
    ensures var init, p := pairs[..|pairs| - 1], pairs[|pairs| - 1];
            var one := EncodeWord(p.name) + EncodeField(p.value);
            && |EncodePairs(pairs)| == |EncodePairs(init)| + |one|
            && At(f, pos, EncodePairs(init)) && At(f, pos + |EncodePairs(init)|, one)
  {
    hide At, EncodeWord, EncodeField;
    var init, p := pairs[..|pairs| - 1], pairs[|pairs| - 1];
    assert pairs == init + [p];
    EncodePairsAppends(init, p);
    AtSplits(f, pos, EncodePairs(init), EncodeWord(p.name) + EncodeField(p.value));
  }

  lemma ScannedPastOneMore(f: Bytes, pos: nat, n: nat, pairs: seq<Pair>, lim: Limits, show: Value -> Bytes)
    requires pairs != [] && At(f, pos, EncodePairs(pairs)) && |pairs| <= n && PairsOk(pairs, show)
    requires |EncodePairs(pairs)| <= lim.maxBytes
    ensures |EncodePairs(pairs[..|pairs| - 1])| <= |EncodePairs(pairs)|
    ensures ScannedPast(f, pos, n, pairs, lim, show) == ScannedPast(f, pos, n, pairs[..|pairs| - 1], lim, show)
  {
    hide Scan, At, Note, Complete, EncodeWord, EncodeField, EncodePairs, PairOk, Geometry, Enough, ScannedPast;
    var init, p := pairs[..|pairs| - 1], pairs[|pairs| - 1];
    EndsBefore(f, pos, EncodePairs(pairs));
    EncodePairsInit(f, pos, pairs);
    InitOk(pairs, show);
    EnoughStep(pairs, show);
    if Enough(pairs, show) == |pairs| {
      assert init[..|init|] == init;
      ArchHasNoDot(init, show);
      GeometryStep(pairs, show);
      ScanOneMore(f, pos + |EncodePairs(init)|, n - |init|, |EncodePairs(init)|, Geometry(init, show), p, lim, show);
      PastWhole(f, pos, n, pairs, lim, show);
      PastWhole(f, pos, n, init, lim, show);
    } else {
      PastPrefix(f, pos, n, pairs, lim, show);
    }
  }

  lemma GeometryStep(pairs: seq<Pair>, show: Value -> Bytes)
    requires pairs != [] && DOT !in Geometry(pairs[..|pairs| - 1], show).arch
    ensures var p := pairs[|pairs| - 1];
            Geometry(pairs, show) == Note(Geometry(pairs[..|pairs| - 1], show), p.name, ValueOf(p.value), show)
  {
    hide Note, Added;
    NoteIsGeometry(Geometry(pairs[..|pairs| - 1], show), pairs[|pairs| - 1], show);
  }

  lemma PastWhole(f: Bytes, pos: nat, n: nat, pairs: seq<Pair>, lim: Limits, show: Value -> Bytes)
    requires pos + |EncodePairs(pairs)| <= |f| && |pairs| <= n && Enough(pairs, show) == |pairs|
    ensures ScannedPast(f, pos, n, pairs, lim, show)
            == if pairs != [] && Complete(Geometry(pairs, show)) then Geometry(pairs, show)
               else Scan(f, pos + |EncodePairs(pairs)|, n - |pairs|, |EncodePairs(pairs)|, Geometry(pairs, show),
                         lim, show)
  {
    hide Scan, Geometry, Complete, Enough, EncodePairs;
    assert pairs[..|pairs|] == pairs;
  }

  lemma PastPrefix(f: Bytes, pos: nat, n: nat, pairs: seq<Pair>, lim: Limits, show: Value -> Bytes)
    requires pairs != [] && pos + |EncodePairs(pairs)| <= |f| && |pairs| <= n
    requires pos + |EncodePairs(pairs[..|pairs| - 1])| <= |f|
    requires var k := Enough(pairs, show);
             && 0 < k == Enough(pairs[..|pairs| - 1], show) && k < |pairs|
             && Complete(Geometry(pairs[..|pairs| - 1][..k], show)) && pairs[..k] == pairs[..|pairs| - 1][..k]
    ensures ScannedPast(f, pos, n, pairs, lim, show) == ScannedPast(f, pos, n, pairs[..|pairs| - 1], lim, show)
  {
    hide Scan, Geometry, Complete, Enough, EncodePairs;
  }

  lemma InitOk(pairs: seq<Pair>, show: Value -> Bytes)
    requires PairsOk(pairs, show) && pairs != []
    ensures PairsOk(pairs[..|pairs| - 1], show) && PairOk(pairs[|pairs| - 1], show)
  {
    var init := pairs[..|pairs| - 1];
    forall i | 0 <= i < |init| ensures PairOk(init[i], show) {
      assert init[i] == pairs[i];
    }
  }

  /** Once a prefix is enough it stays so; until then the whole list is. */
  lemma EnoughStep(pairs: seq<Pair>, show: Value -> Bytes)
    requires pairs != []
    ensures var init := pairs[..|pairs| - 1];
            var k := Enough(init, show);
            if k > 0 && Complete(Geometry(init[..k], show))
            then Enough(pairs, show) == k && pairs[..k] == init[..k]
            else Enough(pairs, show) == |pairs| && k == |init|
  {
    var init := pairs[..|pairs| - 1];
    EnoughIsShortest(init, show);
    assert pairs[..Enough(init, show)] == init[..Enough(init, show)];
  }

  /** The fixed part of the header. */
  lemma HeaderReadsBack(f: Bytes, version: int, tensors: Bytes, count: nat, pairs: seq<Pair>, rest: Bytes,
                        lim: Limits, show: Value -> Bytes)
    requires f == EncodeHeader(version, tensors, count, pairs) + rest
    requires version in {2, 3} && |tensors| == 8 && 0 < count <= lim.maxPairs && count < Pow(8)
    ensures |f| >= 24 && Parsed(f, lim, show) == Scan(f, 24, count, 0, NOTHING, lim, show)
    ensures At(f, 24, EncodePairs(pairs)) && f[24 + |EncodePairs(pairs)|..] == rest
  {
    hide Scan, ToLE, FromLE, EncodePairs;
    var v, c := ToLE(version, 4), ToLE(count, 8);
    assert MAGIC == [0x47, 0x47, 0x55, 0x46];
    assert f[0..4] == MAGIC && f[4..8] == v && f[16..24] == c;
    PowersAre();
    LittleEndianRoundTrip(version, 4);
    LittleEndianRoundTrip(count, 8);
  }

  /** The scan gives back the geometry of the shortest prefix that states everything needed,
      whatever follows that prefix, or else of the whole list. */
  lemma ScanInvertsEncoder(version: int, tensors: Bytes, count: nat, pairs: seq<Pair>, rest: Bytes,
                           lim: Limits, show: Value -> Bytes)
    requires version in {2, 3} && |tensors| == 8 && 0 < count <= lim.maxPairs && count < Pow(8)
    requires PairsOk(pairs, show) && |EncodePairs(pairs)| <= lim.maxBytes && |pairs| <= count
    requires |pairs| == count || Complete(Geometry(pairs[..Enough(pairs, show)], show))
    ensures Parsed(EncodeHeader(version, tensors, count, pairs) + rest, lim, show)
            == Geometry(pairs[..Enough(pairs, show)], show)
  {
    var f := EncodeHeader(version, tensors, count, pairs) + rest;
    HeaderReadsBack(f, version, tensors, count, pairs, rest, lim, show);
    ScanReadsBack(f, 24, count, pairs, lim, show);
    EndsWithGeometry(f, count, pairs, lim, show);
  }

  /** The scan of a header that states one architecture: it stops at the first pair by which
      all four needed keys are stated, and reports what was stated up to there. */
  lemma ScanReports(version: int, tensors: Bytes, count: nat, pairs: seq<Pair>, rest: Bytes, lim: Limits,
                    show: Value -> Bytes, i: int, a: Bytes)
    returns (n: nat)
    requires version in {2, 3} && |tensors| == 8 && 0 < count <= lim.maxPairs && count < Pow(8)
    requires Tells(pairs, i, a) && |EncodePairs(pairs)| <= lim.maxBytes && |pairs| <= count
    requires forall k :: 0 <= k < |pairs| ==> |pairs[k].name| <= 4194304 && FieldOk(pairs[k].value)
    requires |pairs| == count || AllNeeded(pairs, i, a)
    ensures i < n <= |pairs| && (n < |pairs| ==> AllNeeded(pairs[..n], i, a))
    ensures forall k :: i < k < n ==> !AllNeeded(pairs[..k], i, a)
    ensures Reports(Parsed(EncodeHeader(version, tensors, count, pairs) + rest, lim, show), pairs[..n], i, a)
  {
    hide Parsed, EncodeHeader, Geometry, EncodePairs, FieldOk, Complete, OfText, AllNeeded, Reports;
    n := Enough(pairs, show);
    EnoughIsShortest(pairs, show);
    TellsOk(pairs, show, i, a);
    forall k | i < k <= |pairs| ensures Complete(Geometry(pairs[..k], show)) <==> AllNeeded(pairs[..k], i, a) {
      TellsPrefix(pairs, i, a, k);
      CompleteIff(pairs[..k], show, i, a);
    }
    forall k | 0 <= k <= i ensures !Complete(Geometry(pairs[..k], show)) {
      BeforeArchitecture(pairs, show, i, a, k);
    }
    assert pairs[..|pairs|] == pairs;
    ScanInvertsEncoder(version, tensors, count, pairs, rest, lim, show);
    TellsPrefix(pairs, i, a, n);
    GeometryReports(pairs[..n], show, i, a);
  }

  lemma TellsOk(pairs: seq<Pair>, show: Value -> Bytes, i: int, a: Bytes)
    requires Tells(pairs, i, a)
    requires forall k :: 0 <= k < |pairs| ==> |pairs[k].name| <= 4194304 && FieldOk(pairs[k].value)
    ensures PairsOk(pairs, show)
  {
    hide FieldOk;
  }

  lemma TellsPrefix(pairs: seq<Pair>, i: int, a: Bytes, k: int)
    requires Tells(pairs, i, a) && i < k <= |pairs|
    ensures Tells(pairs[..k], i, a)
  {
    hide OfText;
  }

  lemma BeforeArchitecture(pairs: seq<Pair>, show: Value -> Bytes, i: int, a: Bytes, k: int)
    requires Tells(pairs, i, a) && 0 <= k <= i
    ensures !Complete(Geometry(pairs[..k], show))
  {
    NoArchitectureNothing(pairs[..k], show);
  }

  lemma EndsWithGeometry(f: Bytes, count: nat, pairs: seq<Pair>, lim: Limits, show: Value -> Bytes)
    requires 24 + |EncodePairs(pairs)| <= |f| && |pairs| <= count
    requires |pairs| == count || Complete(Geometry(pairs[..Enough(pairs, show)], show))
    ensures ScannedPast(f, 24, count, pairs, lim, show) == Geometry(pairs[..Enough(pairs, show)], show)
  {
    hide Step;
    EnoughIsShortest(pairs, show);
    assert pairs[..|pairs|] == pairs;
    assert Enough(pairs, show) == 0 ==> pairs == [] && !Complete(NOTHING);
  }

  /** The start of a pair whose array is too long to walk. */
  function LongArray(name: Bytes, kind: int, items: nat): Bytes {
    EncodeWord(name) + (ToLE(9, 4) + (ToLE(kind, 4) + ToLE(items, 8)))
  }

  /** Such an array ends the scan with what stood before it. */
  lemma LongArrayEndsScan(version: int, tensors: Bytes, count: nat, pairs: seq<Pair>, name: Bytes, kind: int,
                          items: nat, rest: Bytes, lim: Limits, show: Value -> Bytes)
    requires version in {2, 3} && |tensors| == 8 && 0 < count <= lim.maxPairs && count < Pow(8)
    requires PairsOk(pairs, show) && |EncodePairs(pairs)| <= lim.maxBytes && |pairs| < count
    requires |name| <= 4194304 && 4096 < items < Pow(8)
    ensures Parsed(EncodeHeader(version, tensors, count, pairs) + (LongArray(name, kind, items) + rest), lim, show)
            == Geometry(pairs[..Enough(pairs, show)], show)
  {
    hide Scan, EncodeHeader, EncodePairs, LongArray, Parsed, Step, At, Geometry, Enough, ScannedPast, PairsOk;
    var long := LongArray(name, kind, items);
    var f := EncodeHeader(version, tensors, count, pairs) + (long + rest);
    HeaderReadsBack(f, version, tensors, count, pairs, long + rest, lim, show);
    ScanReadsBack(f, 24, count, pairs, lim, show);
    var end := 24 + |EncodePairs(pairs)|;
    EndsBefore(f, 24, EncodePairs(pairs));
    AtTail(f, end, long, rest);
    LongArrayStops(f, end, name, kind, items, |EncodePairs(pairs)|, Geometry(pairs, show), lim, show);
    ScanUnfolds(f, end, count - |pairs|, |EncodePairs(pairs)|, Geometry(pairs, show), lim, show);
    PastOrHere(f, count, pairs, lim, show);
  }

  lemma AtTail(f: Bytes, pos: nat, s: Bytes, rest: Bytes)
    requires pos <= |f| && f[pos..] == s + rest
    ensures At(f, pos, s)
  {
    assert f[pos..][..|s|] == s;
  }

  lemma PastOrHere(f: Bytes, count: nat, pairs: seq<Pair>, lim: Limits, show: Value -> Bytes)
    requires 24 + |EncodePairs(pairs)| <= |f| && |pairs| <= count
    requires Scan(f, 24 + |EncodePairs(pairs)|, count - |pairs|, |EncodePairs(pairs)|, Geometry(pairs, show), lim, show)
             == Geometry(pairs, show)
    ensures ScannedPast(f, 24, count, pairs, lim, show) == Geometry(pairs[..Enough(pairs, show)], show)
  {
    hide Scan, Geometry, EncodePairs, Complete, Enough;
    EnoughIsShortest(pairs, show);
    assert pairs[..|pairs|] == pairs;
  }

  lemma LongArrayStops(f: Bytes, pos: nat, name: Bytes, kind: int, items: nat, consumed: nat, m: Meta,
                       lim: Limits, show: Value -> Bytes)
    requires |name| <= MAX_STRING && MAX_ITEMS < items < Pow(8)
    requires At(f, pos, LongArray(name, kind, items))
    ensures Step(f, pos, consumed, m, lim, show) == End(m)
  {
    hide At, ToLE, EncodeWord, Note, Complete;
    var head := ToLE(kind, 4) + ToLE(items, 8);
    var at := pos + |EncodeWord(name)|;
    AtSplits(f, pos, EncodeWord(name), ToLE(ARRAY_KIND, 4) + head);
    NameLength(name);
    WordReadsBack(f, pos, name);
    LongArrayIsTooBig(f, at, kind, items);
  }

  lemma NameLength(name: Bytes)
    ensures |EncodeWord(name)| == 8 + |name|
  {
  }

  lemma LongArrayIsTooBig(f: Bytes, pos: nat, kind: int, items: nat)
    requires MAX_ITEMS < items < Pow(8) && pos <= |f|
    requires At(f, pos, ToLE(ARRAY_KIND, 4) + (ToLE(kind, 4) + ToLE(items, 8)))
    ensures ValueAt(f, pos).TooBig?
  {
    hide ItemsAt, Decoded, ToLE, FromLE, At, WordAt;
    var head := ToLE(kind, 4) + ToLE(items, 8);
    KindReadsBack(f, pos, ARRAY_KIND, head);
    TakeAt(f, pos + 4, head);
    assert head[4..] == ToLE(items, 8);
    LittleEndianRoundTrip(items, 8);
  }
}
