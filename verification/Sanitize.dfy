/** The text clean-up every stored fact goes through, character class by character class. */
module Sanitize {

  predicate IsControl(c: char) {
    c < ' ' || c == '\U{7F}'
  }

  predicate IsInvisible(c: char) {
    || c == '\U{AD}' || '\U{200B}' <= c <= '\U{200F}' || '\U{202A}' <= c <= '\U{202E}'
    || '\U{2060}' <= c <= '\U{2064}' || '\U{2066}' <= c <= '\U{2069}' || c == '\U{FEFF}'
  }

  /** What Python's `str.strip` removes. */
  predicate IsSpace(c: char) {
    || c == ' ' || '\U{9}' <= c <= '\U{D}' || '\U{1C}' <= c <= '\U{1F}' || c == '\U{85}' || c == '\U{A0}'
    || c == '\U{1680}' || '\U{2000}' <= c <= '\U{200A}' || c == '\U{2028}' || c == '\U{2029}'
    || c == '\U{202F}' || c == '\U{205F}' || c == '\U{3000}'
  }

  function Spaced(s: string): string {
    if s == [] then [] else [if IsControl(s[0]) then ' ' else s[0]] + Spaced(s[1..])
  }

  function Visible(s: string): string {
    if s == [] then [] else (if IsInvisible(s[0]) then [] else [s[0]]) + Visible(s[1..])
  }

  /** Runs of two or more spaces become one. */
  function Collapse(s: string): string {
    if s == [] then []
    else if |s| >= 2 && s[0] == ' ' && s[1] == ' ' then Collapse(s[1..])
    else [s[0]] + Collapse(s[1..])
  }

  function Strip(s: string): string {
    if s == [] then []
    else if IsSpace(s[0]) then Strip(s[1..])
    else if IsSpace(s[|s| - 1]) then Strip(s[..|s| - 1])
    else s
  }

  function Clean(s: string): string {
    Collapse(Visible(Spaced(s)))
  }

  function Cap(s: string, limit: nat): string {
    if |s| <= limit then s else s[..limit]
  }

  function Sanitized(s: string, limit: nat): string {
    Cap(Strip(Clean(s)), limit)
  }

  // ---- what each step does, over the characters ----

  /** Control characters, the invisible format characters, and what counts as a space. */
  lemma ClassesAre(c: char)
    ensures var n := c as int;
            && (IsControl(c) <==> n < 32 || n == 127)
            && (IsInvisible(c) <==>
                  || n == 173 || 8203 <= n <= 8207 || 8234 <= n <= 8238 || 8288 <= n <= 8292
                  || 8294 <= n <= 8297 || n == 65279)
            && (IsSpace(c) <==>
                  || 9 <= n <= 13 || 28 <= n <= 32 || n == 133 || n == 160 || n == 5760 || 8192 <= n <= 8202
                  || n == 8232 || n == 8233 || n == 8239 || n == 8287 || n == 12288)
  {
  }

  /** Control characters become spaces. */
  lemma {:induction false} SpacedIs(s: string)
    ensures |Spaced(s)| == |s|
    ensures forall i :: 0 <= i < |s| ==> Spaced(s)[i] == if IsControl(s[i]) then ' ' else s[i]
  {
    if s != [] {
      SpacedIs(s[1..]);
    }
  }

  /** Invisible characters go, wherever they stand. */
  lemma {:induction false} VisibleIs(s: string, c: char)
    ensures Visible(s + [c]) == Visible(s) + if IsInvisible(c) then [] else [c]
  {
    if s != [] {
      VisibleIs(s[1..], c);
      assert (s + [c])[1..] == s[1..] + [c];
    }
  }

  /** A space after a space goes. */
  lemma {:induction false} CollapseIs(s: string, c: char)
    ensures Collapse(s + [c])
            == if s != [] && s[|s| - 1] == ' ' && c == ' ' then Collapse(s) else Collapse(s) + [c]
  {
    var t := s + [c];
    if s == [] {
      assert t[1..] == [];
    } else {
      CollapseIs(s[1..], c);
      assert t[1..] == s[1..] + [c];
      assert |s| > 1 ==> t[1] == s[1];
      if |s| == 1 {
        assert Collapse(t[1..]) == [c] && s[1..] == [] && Collapse(s) == s;
      }
    }
  }

  /** Stripping takes spaces off both ends, all of them, and nothing else. */
  lemma {:induction false} StripIs(s: string) returns (a: nat, b: nat)
    ensures a <= b <= |s| && Strip(s) == s[a..b]
    ensures forall k :: 0 <= k < a || b <= k < |s| ==> IsSpace(s[k])
    ensures a < b ==> !IsSpace(s[a]) && !IsSpace(s[b - 1])
  {
    hide IsSpace;
    if s == [] {
      return 0, 0;
    } else if IsSpace(s[0]) {
      a, b := StripIs(s[1..]);
      assert s[1..][a..b] == s[a + 1..b + 1];
      forall k | 0 < k <= a || b < k < |s| ensures IsSpace(s[k]) {
        assert s[k] == s[1..][k - 1];
      }
      a, b := a + 1, b + 1;
    } else if IsSpace(s[|s| - 1]) {
      a, b := StripIs(s[..|s| - 1]);
      assert s[..|s| - 1][a..b] == s[a..b];
    } else {
      return 0, |s|;
    }
  }

  /** The steps in their order, and the cap last. */
  lemma SanitizedIs(s: string, limit: nat)
    ensures var body := Strip(Collapse(Visible(Spaced(s))));
            Sanitized(s, limit) == if |body| > limit then body[..limit] else body
  {
  }

  predicate Plain(s: string) {
    forall i :: 0 <= i < |s| ==> !IsControl(s[i]) && !IsInvisible(s[i])
  }

  predicate Single(s: string) {
    forall i :: 0 < i < |s| ==> !(s[i - 1] == ' ' && s[i] == ' ')
  }

  lemma {:induction false} SpacedHasNoControls(s: string)
    ensures forall i :: 0 <= i < |Spaced(s)| ==> !IsControl(Spaced(s)[i])
    ensures (forall i :: 0 <= i < |s| ==> !IsControl(s[i])) ==> Spaced(s) == s
  {
    if s != [] {
      SpacedHasNoControls(s[1..]);
      assert s == [s[0]] + s[1..];
    }
  }

  lemma {:induction false} VisibleIsPlain(s: string)
    requires forall i :: 0 <= i < |s| ==> !IsControl(s[i])
    ensures Plain(Visible(s))
    ensures Plain(s) ==> Visible(s) == s
  {
    if s != [] {
      VisibleIsPlain(s[1..]);
      assert s == [s[0]] + s[1..];
    }
  }

  lemma {:induction false} CollapseIsSingle(s: string)
    requires Plain(s)
    ensures Plain(Collapse(s)) && Single(Collapse(s))
    ensures s != [] ==> Collapse(s) != [] && Collapse(s)[0] == s[0]
    ensures Single(s) ==> Collapse(s) == s
  {
    if s != [] {
      CollapseIsSingle(s[1..]);
      if |s| >= 2 && s[0] == ' ' && s[1] == ' ' {
      } else {
        assert s == [s[0]] + s[1..];
        if Single(s) {
          assert forall i :: 0 < i < |s[1..]| ==> s[1..][i] == s[i + 1] && s[1..][i - 1] == s[i];
        }
      }
    }
  }

  lemma CleanIsStable(s: string)
    ensures Plain(Clean(s)) && Single(Clean(s))
    ensures Plain(s) && Single(s) ==> Clean(s) == s
  {
    SpacedHasNoControls(s);
    VisibleIsPlain(Spaced(s));
    CollapseIsSingle(Visible(Spaced(s)));
  }

  lemma {:induction false} StripTrims(s: string)
    ensures Plain(s) ==> Plain(Strip(s))
    ensures Single(s) ==> Single(Strip(s))
    ensures Strip(s) != [] ==> !IsSpace(Strip(s)[0]) && !IsSpace(Strip(s)[|Strip(s)| - 1])
    ensures |Strip(s)| <= |s|
    ensures Strip(s) == s <==> s == [] || (!IsSpace(s[0]) && !IsSpace(s[|s| - 1]))
  {
    if s != [] {
      if IsSpace(s[0]) {
        StripTrims(s[1..]);
        assert Single(s) ==> Single(s[1..]) by {
          assert forall i :: 0 < i < |s[1..]| ==> s[1..][i] == s[i + 1] && s[1..][i - 1] == s[i];
        }
      } else if IsSpace(s[|s| - 1]) {
        StripTrims(s[..|s| - 1]);
      }
    }
  }

  lemma SanitizedShape(s: string, limit: nat)
    ensures var t := Sanitized(s, limit);
            Plain(t) && Single(t) && |t| <= limit && (t != [] ==> !IsSpace(t[0]))
  {
    CleanIsStable(s);
    StripTrims(Clean(s));
  }

  /** Sanitising twice is the same as once exactly when the cap does not cut the cleaned text
      right after a space. The second pass is final, and empties no text. */
  lemma IdempotentIff(s: string, limit: nat)
    ensures var body, t := Strip(Clean(s)), Sanitized(s, limit);
            && (Sanitized(t, limit) == t <==> |body| <= limit || limit == 0 || !IsSpace(body[limit - 1]))
            && (Sanitized(t, limit) == [] <==> t == [])
            && Sanitized(Sanitized(t, limit), limit) == Sanitized(t, limit)
  {
    var t := Sanitized(s, limit);
    CleanIsStable(s);
    StripTrims(Clean(s));
    SanitizedShape(s, limit);
    CleanIsStable(t);
    StripTrims(t);
    var u := Strip(t);
    assert Sanitized(t, limit) == u;
    CleanIsStable(u);
    StripTrims(u);
    if t != [] {
      StripKeepsText(t);
    }
  }

  /** A text that is already clean, except that its cap falls right after a space. */
  lemma CutAfterSpace(s: string, limit: nat)
    requires Plain(s) && Single(s) && s != [] && !IsSpace(s[0]) && !IsSpace(s[|s| - 1])
    requires 0 < limit < |s| && IsSpace(s[limit - 1])
    ensures Sanitized(s, limit) == s[..limit] && Sanitized(s[..limit], limit) != s[..limit]
  {
    CleanIsStable(s);
    StripTrims(s);
    IdempotentIff(s, limit);
  }

  /** For every cap but the smallest some text changes when it is sanitised again. */
  lemma SomeTextIsNotFinal(limit: nat) returns (s: string)
    requires limit >= 2
    ensures Sanitized(Sanitized(s, limit), limit) != Sanitized(s, limit)
  {
    s := seq(limit + 1, i => if i == limit - 1 then ' ' else 'a');
    CutAfterSpace(s, limit);
  }

  lemma {:induction false} StripKeepsText(s: string)
    requires s != [] && !IsSpace(s[0])
    ensures Strip(s) != []
  {
    if IsSpace(s[|s| - 1]) {
      StripKeepsText(s[..|s| - 1]);
    }
  }
}
