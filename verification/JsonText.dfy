/** What `json.dumps` writes with its defaults: ASCII only, every control character escaped. */
module JsonText {

  /** A byte; nothing here depends on its range. */
  type Byte = int

  /** A Unicode string, as code points. */
  type Text = seq<CodePoint>
  type CodePoint = c: int | 0 <= c < 0x110000

  datatype Json =
    | Null
    | Bool(value: bool)
    | Number(literal: seq<Byte>)
    | Str(text: Text)
    | Arr(items: seq<Json>)
    | Obj(members: seq<Member>)

  datatype Member = Member(key: Text, value: Json)

  predicate Printable(s: seq<Byte>) {
    forall i :: 0 <= i < |s| ==> 0x20 <= s[i] <= 0x7e
  }

  /** Number literals are digits, signs, exponents and the names of special values. */
  predicate WellFormed(j: Json)
    decreases j
  {
    match j
    case Number(l) => l != [] && Printable(l)
    case Arr(items) => forall i :: 0 <= i < |items| ==> WellFormed(items[i])
    case Obj(members) => forall i :: 0 <= i < |members| ==> WellFormed(members[i].value)
    case _ => true
  }

  function HexDigit(n: int): Byte
    requires 0 <= n < 16
  {
    if n < 10 then 0x30 + n else 0x57 + n
  }

  function UnicodeEscape(unit: int): seq<Byte>
    requires 0 <= unit < 0x10000
  {
    [0x5c, 0x75, HexDigit(unit / 4096), HexDigit(unit / 256 % 16), HexDigit(unit / 16 % 16), HexDigit(unit % 16)]
  }

  function Escape(c: CodePoint): seq<Byte> {
    if c == 0x22 || c == 0x5c then [0x5c, c]
    else if c == 0x0a then [0x5c, 0x6e]
    else if c == 0x0d then [0x5c, 0x72]
    else if c == 0x09 then [0x5c, 0x74]
    else if c == 0x0c then [0x5c, 0x66]
    else if c == 0x08 then [0x5c, 0x62]
    else if 0x20 <= c <= 0x7e then [c]
    else if c < 0x10000 then UnicodeEscape(c)
    else UnicodeEscape(0xd800 + (c - 0x10000) / 1024) + UnicodeEscape(0xdc00 + (c - 0x10000) % 1024)
  }

  function EscapeAll(t: Text): seq<Byte> {
    if t == [] then [] else Escape(t[0]) + EscapeAll(t[1..])
  }

  function Quoted(t: Text): seq<Byte> {
    [0x22] + EscapeAll(t) + [0x22]
  }

  function Encode(j: Json): seq<Byte>
    decreases j
  {
    match j
    case Null => [0x6e, 0x75, 0x6c, 0x6c]
    case Bool(true) => [0x74, 0x72, 0x75, 0x65]
    case Bool(false) => [0x66, 0x61, 0x6c, 0x73, 0x65]
    case Number(l) => l
    case Str(t) => Quoted(t)
    case Arr(items) => [0x5b] + EncodeItems(items) + [0x5d]
    case Obj(members) => [0x7b] + EncodeMembers(members) + [0x7d]
  }

  function EncodeItems(items: seq<Json>): seq<Byte>
    decreases items
  {
    if items == [] then []
    else if |items| == 1 then Encode(items[0])
    else Encode(items[0]) + [0x2c, 0x20] + EncodeItems(items[1..])
  }

  function EncodeMembers(members: seq<Member>): seq<Byte>
    decreases members
  {
    if members == [] then []
    else
      var first := Quoted(members[0].key) + [0x3a, 0x20] + Encode(members[0].value);
      if |members| == 1 then first else first + [0x2c, 0x20] + EncodeMembers(members[1..])
  }

  function Ascii(s: string): seq<Byte> {
    seq(|s|, i requires 0 <= i < |s| => s[i] as int)
  }

  /** How each character is written: short escapes for quote, backslash and five controls, itself
      if printable, and otherwise its code units in four lower-case hexadecimal digits each. */
  lemma EscapesAre(c: CodePoint)
    ensures c == 34 ==> Escape(c) == Ascii("\\\"")
    ensures c == 92 ==> Escape(c) == Ascii("\\\\")
    ensures c == 10 ==> Escape(c) == Ascii("\\n")
    ensures c == 13 ==> Escape(c) == Ascii("\\r")
    ensures c == 9 ==> Escape(c) == Ascii("\\t")
    ensures c == 12 ==> Escape(c) == Ascii("\\f")
    ensures c == 8 ==> Escape(c) == Ascii("\\b")
    ensures 32 <= c <= 126 && c != 34 && c != 92 ==> Escape(c) == [c]
    ensures (c < 32 && c !in {8, 9, 10, 12, 13}) || 127 <= c < 0x10000 ==> Escape(c) == UnicodeEscape(c)
    ensures c >= 0x10000 ==>
              Escape(c) == UnicodeEscape(0xd800 + (c - 0x10000) / 1024) + UnicodeEscape(0xdc00 + (c - 0x10000) % 1024)
  {
    hide UnicodeEscape;
  }

  lemma DigitsAre(unit: int)
    requires 0 <= unit < 0x10000
    ensures var digits := Ascii("0123456789abcdef");
            UnicodeEscape(unit)
            == Ascii("\\u") + [digits[unit / 4096], digits[unit / 256 % 16], digits[unit / 16 % 16], digits[unit % 16]]
  {
    DigitIs(unit / 4096);
    DigitIs(unit / 256 % 16);
    DigitIs(unit / 16 % 16);
    DigitIs(unit % 16);
    hide HexDigit;
  }

  lemma DigitIs(n: int)
    requires 0 <= n < 16
    ensures HexDigit(n) == Ascii("0123456789abcdef")[n]
  {
  }

  /** The grammar of section 2 of RFC 8259 with the default separators: a comma and a space, and
      a colon and a space. */
  lemma ScalarsEncodeTo(b: bool, literal: seq<Byte>, t: Text)
    ensures Encode(Null) == Ascii("null") && Encode(Bool(b)) == Ascii(if b then "true" else "false")
    ensures Encode(Number(literal)) == literal && Encode(Str(t)) == Ascii("\"") + EscapeAll(t) + Ascii("\"")
  {
    hide EscapeAll;
  }

  lemma ArraysEncodeTo(items: seq<Json>)
    ensures Encode(Arr(items)) == Ascii("[") + EncodeItems(items) + Ascii("]")
    ensures items == [] ==> EncodeItems(items) == []
    ensures |items| == 1 ==> EncodeItems(items) == Encode(items[0])
    ensures |items| > 1 ==> EncodeItems(items) == Encode(items[0]) + Ascii(", ") + EncodeItems(items[1..])
  {
    ListEncodesTo(items);
    BracketsAre(EncodeItems(items));
  }

  lemma ListEncodesTo(items: seq<Json>)
    ensures items == [] ==> EncodeItems(items) == []
    ensures |items| == 1 ==> EncodeItems(items) == Encode(items[0])
    ensures |items| > 1 ==> EncodeItems(items) == Encode(items[0]) + Ascii(", ") + EncodeItems(items[1..])
  {
    hide Encode;
    assert Ascii(", ") == [0x2c, 0x20];
  }

  lemma BracketsAre(inner: seq<Byte>)
    ensures [0x5b] + inner + [0x5d] == Ascii("[") + inner + Ascii("]")
    ensures [0x7b] + inner + [0x7d] == Ascii("{") + inner + Ascii("}")
  {
  }

  lemma ObjectsEncodeTo(members: seq<Member>)
    ensures Encode(Obj(members)) == Ascii("{") + EncodeMembers(members) + Ascii("}")
    ensures members == [] ==> EncodeMembers(members) == []
    ensures members != [] ==>
              var first := Ascii("\"") + EscapeAll(members[0].key) + Ascii("\": ") + Encode(members[0].value);
              EncodeMembers(members)
              == if |members| == 1 then first else first + Ascii(", ") + EncodeMembers(members[1..])
  {
    MembersEncodeTo(members);
    BracketsAre(EncodeMembers(members));
  }

  lemma MembersEncodeTo(members: seq<Member>)
    ensures members == [] ==> EncodeMembers(members) == []
    ensures members != [] ==>
              var first := Ascii("\"") + EscapeAll(members[0].key) + Ascii("\": ") + Encode(members[0].value);
              EncodeMembers(members)
              == if |members| == 1 then first else first + Ascii(", ") + EncodeMembers(members[1..])
  {
    hide Encode, EscapeAll;
    if members != [] {
      KeyIs(members[0].key, Encode(members[0].value));
      assert Ascii(", ") == [0x2c, 0x20];
    }
  }

  lemma KeyIs(key: Text, value: seq<Byte>)
    ensures Quoted(key) + [0x3a, 0x20] + value == Ascii("\"") + EscapeAll(key) + Ascii("\": ") + value
  {
    hide EscapeAll;
  }

  // ---- reading an escaped text ----

  function HexValue(b: Byte): int {
    if 0x30 <= b <= 0x39 then b - 0x30 else b - 0x57
  }

  /** The code unit that four hexadecimal digits give. */
  function UnitAt(s: seq<Byte>, i: nat): int
    requires i + 4 <= |s|
  {
    4096 * HexValue(s[i]) + 256 * HexValue(s[i + 1]) + 16 * HexValue(s[i + 2]) + HexValue(s[i + 3])
  }

  predicate IsHigh(c: int) {
    0xd800 <= c < 0xdc00
  }

  predicate IsLow(c: int) {
    0xdc00 <= c < 0xe000
  }

  predicate UnitComes(s: seq<Byte>, i: nat) {
    i + 6 <= |s| && s[i] == 0x5c && s[i + 1] == 0x75
  }

  datatype One = One(c: int, size: nat)

  /** The first character of an escaped text, as section 7 of RFC 8259 defines the escapes. */
  function ReadOne(s: seq<Byte>): (r: One)
    requires s != []
    ensures 0 < r.size <= |s|
  {
    if s[0] != 0x5c || |s| < 2 then One(s[0], 1)
    else if s[1] == 0x6e then One(10, 2)
    else if s[1] == 0x72 then One(13, 2)
    else if s[1] == 0x74 then One(9, 2)
    else if s[1] == 0x66 then One(12, 2)
    else if s[1] == 0x62 then One(8, 2)
    else if !UnitComes(s, 0) then One(s[1], 2)
    else if IsHigh(UnitAt(s, 2)) && UnitComes(s, 6) && IsLow(UnitAt(s, 8))
    then One(0x10000 + 1024 * (UnitAt(s, 2) - 0xd800) + (UnitAt(s, 8) - 0xdc00), 12)
    else One(UnitAt(s, 2), 6)
  }

  function ReadText(s: seq<Byte>): seq<int> {
    if s == [] then [] else [ReadOne(s).c] + ReadText(s[ReadOne(s).size..])
  }

  lemma UnitReadsBack(u: int, rest: seq<Byte>)
    requires 0 <= u < 0x10000
    ensures var s := UnicodeEscape(u) + rest; UnitComes(s, 0) && UnitAt(s, 2) == u && s[6..] == rest
  {
    hide HexDigit, HexValue;
    DigitReadsBack(u / 4096);
    DigitReadsBack(u / 256 % 16);
    DigitReadsBack(u / 16 % 16);
    DigitReadsBack(u % 16);
    DigitsAddUp(u);
  }

  lemma DigitReadsBack(n: int)
    requires 0 <= n < 16
    ensures HexValue(HexDigit(n)) == n
  {
  }

  lemma DigitsAddUp(u: nat)
    ensures u == 4096 * (u / 4096) + 256 * (u / 256 % 16) + 16 * (u / 16 % 16) + u % 16
  {
    assert u / 16 / 16 == u / 256 && u / 256 / 16 == u / 4096;
  }

  /** A high surrogate swallows a low one that follows. */
  predicate Swallows(c: int, t: Text) {
    IsHigh(c) && t != [] && IsLow(t[0])
  }

  lemma LowComesIff(t: Text)
    ensures var s := EscapeAll(t);
            UnitComes(s, 0) && IsLow(UnitAt(s, 2)) <==> t != [] && IsLow(t[0])
  {
    hide UnitAt, UnicodeEscape, Escape;
    if t != [] {
      LowEscapeIff(t[0], EscapeAll(t[1..]));
    }
  }

  lemma LowEscapeIff(c: CodePoint, rest: seq<Byte>)
    ensures var s := Escape(c) + rest; UnitComes(s, 0) && IsLow(UnitAt(s, 2)) <==> IsLow(c)
  {
    hide UnitAt, UnicodeEscape;
    if c >= 0x10000 {
      var high, low := 0xd800 + (c - 0x10000) / 1024, UnicodeEscape(0xdc00 + (c - 0x10000) % 1024);
      assert Escape(c) + rest == UnicodeEscape(high) + (low + rest);
      UnitReadsBack(high, low + rest);
    } else if Escape(c) == UnicodeEscape(c) {
      UnitReadsBack(c, rest);
    } else {
      SurrogatesAreEscaped(c);
    }
  }

  lemma WideReadsBack(c: CodePoint, rest: seq<Byte>)
    requires c >= 0x10000
    ensures var s := Escape(c) + rest; ReadOne(s) == One(c, 12) && s[12..] == rest
  {
    hide UnicodeEscape, UnitAt, UnitComes;
    var high, low := 0xd800 + (c - 0x10000) / 1024, 0xdc00 + (c - 0x10000) % 1024;
    var s := Escape(c) + rest;
    assert s == UnicodeEscape(high) + (UnicodeEscape(low) + rest);
    UnitReadsBack(high, UnicodeEscape(low) + rest);
    UnitReadsBack(low, rest);
    UnitsInRow(s);
  }

  /** Where the second of two units stands. */
  lemma UnitsInRow(s: seq<Byte>)
    requires UnitComes(s, 0)
    ensures s != [] && s[0] == 0x5c && |s| >= 6 && s[1] == 0x75
    ensures UnitComes(s, 6) <==> UnitComes(s[6..], 0)
    ensures UnitComes(s, 6) ==> UnitAt(s, 8) == UnitAt(s[6..], 2) && s[12..] == s[6..][6..]
  {
  }

  lemma NarrowReadsBack(c: CodePoint, t: Text)
    requires c < 0x10000 && Escape(c) == UnicodeEscape(c)
    ensures var s := Escape(c) + EscapeAll(t);
            s != [] && |s| >= 6
            && if Swallows(c, t) then ReadOne(s).size == 12 && |s| >= 12 && s[12..] == EscapeAll(t[1..])
               else ReadOne(s) == One(c, 6) && s[6..] == EscapeAll(t)
  {
    hide UnicodeEscape, UnitAt, UnitComes;
    var s := Escape(c) + EscapeAll(t);
    UnitReadsBack(c, EscapeAll(t));
    UnitsInRow(s);
    LowComesIff(t);
    if Swallows(c, t) {
      assert EscapeAll(t) == UnicodeEscape(t[0]) + EscapeAll(t[1..]);
      UnitReadsBack(t[0], EscapeAll(t[1..]));
    }
  }

  lemma ShortReadsBack(c: CodePoint, rest: seq<Byte>)
    requires c < 0x10000 && Escape(c) != UnicodeEscape(c)
    ensures var s := Escape(c) + rest;
            s != [] && ReadOne(s) == One(c, |Escape(c)|) && s[|Escape(c)|..] == rest
  {
    hide UnitAt;
  }

  lemma OneReadsBack(t: Text)
    requires t != []
    ensures var s, c := EscapeAll(t), t[0];
            s != [] && ReadOne(s).size <= |s|
            && if Swallows(c, t[1..])
               then s[ReadOne(s).size..] == EscapeAll(t[2..])
               else ReadOne(s).c == c && s[ReadOne(s).size..] == EscapeAll(t[1..])
  {
    hide ReadOne, UnicodeEscape, Escape;
    var c, rest := t[0], EscapeAll(t[1..]);
    if c >= 0x10000 {
      WideReadsBack(c, rest);
    } else if Escape(c) == UnicodeEscape(c) {
      NarrowReadsBack(c, t[1..]);
      assert |t| > 1 ==> t[1..][1..] == t[2..];
    } else {
      ShortReadsBack(c, rest);
      SurrogatesAreEscaped(c);
    }
  }

  lemma SurrogatesAreEscaped(c: CodePoint)
    ensures IsHigh(c) || IsLow(c) ==> Escape(c) == UnicodeEscape(c)
  {
  }

  /** Some high surrogate stands before a low one. */
  ghost predicate Paired(t: Text) {
    exists i :: 0 < i < |t| && 55296 <= t[i - 1] <= 56319 && 56320 <= t[i] <= 57343
  }

  lemma {:induction false} ReadIsShorter(t: Text)
    ensures |ReadText(EscapeAll(t))| <= |t|
    ensures Paired(t) ==> |ReadText(EscapeAll(t))| < |t|
    decreases |t|
  {
    if t != [] {
      OneReadsBack(t);
      if Swallows(t[0], t[1..]) {
        ReadIsShorter(t[2..]);
      } else {
        ReadIsShorter(t[1..]);
        if i :| 0 < i < |t| && IsHigh(t[i - 1]) && IsLow(t[i]) {
          assert i > 1 ==> IsHigh(t[1..][i - 2]) && IsLow(t[1..][i - 1]);
        }
      }
    }
  }

  lemma PairsInside(t: Text)
    ensures t != [] && Swallows(t[0], t[1..]) ==> Paired(t)
    ensures t != [] && Paired(t[1..]) ==> Paired(t)
  {
    if t != [] {
      if Swallows(t[0], t[1..]) {
        var i := 1;
        assert 0 < i < |t| && IsHigh(t[i - 1]) && IsLow(t[i]);
      }
      if i :| 0 < i < |t[1..]| && IsHigh(t[1..][i - 1]) && IsLow(t[1..][i]) {
        var j := i + 1;
        assert 0 < j < |t| && IsHigh(t[j - 1]) && IsLow(t[j]);
      }
    }
  }

  /** An escaped text reads back iff it holds no surrogate pair spelled as two characters. */
  lemma {:induction false} TextReadsBackIff(t: Text)
    ensures ReadText(EscapeAll(t)) == t <==> !Paired(t)
  {
    ReadIsShorter(t);
    PairsInside(t);
    if t != [] && !Paired(t) {
      OneReadsBack(t);
      TextReadsBackIff(t[1..]);
      assert t == [t[0]] + t[1..];
    }
  }

  lemma {:induction false} EscapesArePrintable(t: Text)
    ensures Printable(EscapeAll(t))
  {
    if t != [] {
      EscapesArePrintable(t[1..]);
      assert Printable(Escape(t[0]));
    }
  }

  /** Section 7 of RFC 8259 requires control characters to be escaped, and the ASCII default
      escapes everything else outside the printable range: no encoding holds a raw newline. */
  lemma {:induction false} EncodingIsPrintable(j: Json)
    requires WellFormed(j)
    ensures Printable(Encode(j)) && Encode(j) != []
    decreases j
  {
    hide EscapeAll, EncodeItems, EncodeMembers;
    match j
    case Str(t) => EscapesArePrintable(t);
    case Arr(items) => ItemsArePrintable(items);
    case Obj(members) => MembersArePrintable(members);
    case _ =>
  }

  lemma {:induction false} ItemsArePrintable(items: seq<Json>)
    requires forall i :: 0 <= i < |items| ==> WellFormed(items[i])
    ensures Printable(EncodeItems(items))
    decreases items
  {
    if items != [] {
      EncodingIsPrintable(items[0]);
      ItemsArePrintable(items[1..]);
    }
  }

  lemma {:induction false} MembersArePrintable(members: seq<Member>)
    requires forall i :: 0 <= i < |members| ==> WellFormed(members[i].value)
    ensures Printable(EncodeMembers(members))
    decreases members
  {
    if members != [] {
      EscapesArePrintable(members[0].key);
      EncodingIsPrintable(members[0].value);
      MembersArePrintable(members[1..]);
    }
  }
}
