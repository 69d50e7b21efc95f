/** The election's ranking key: role first, then priority, then node id.
    The election converges because this is a total order on nodes with distinct ids. */
module Ranking {

  datatype Role = PrimaryCapable | Follower

  datatype Rank = Rank(role: Role, priority: int, id: string)

  /** Python's order on strings: code point by code point, a prefix comes first. */
  predicate TextLe(a: string, b: string) {
    a == [] || (b != [] && (a[0] < b[0] || (a[0] == b[0] && TextLe(a[1..], b[1..]))))
  }

  /** Tuple comparison of two ranking keys. */
  predicate Le(a: Rank, b: Rank) {
    if a.role != b.role then a.role == PrimaryCapable
    else if a.priority != b.priority then a.priority < b.priority
    else TextLe(a.id, b.id)
  }

  lemma {:induction false} TextReflexive(a: string)
    ensures TextLe(a, a)
  {
    if a != [] {
      TextReflexive(a[1..]);
    }
  }

  lemma {:induction false} TextTotal(a: string, b: string)
    ensures TextLe(a, b) || TextLe(b, a)
  {
    if a != [] && b != [] {
      TextTotal(a[1..], b[1..]);
    }
  }

  lemma {:induction false} TextAntisymmetric(a: string, b: string)
    requires TextLe(a, b) && TextLe(b, a)
    ensures a == b
  {
    if a != [] {
      TextAntisymmetric(a[1..], b[1..]);
      assert a == [a[0]] + a[1..] && b == [b[0]] + b[1..];
    }
  }

  lemma {:induction false} TextTransitive(a: string, b: string, c: string)
    requires TextLe(a, b) && TextLe(b, c)
    ensures TextLe(a, c)
  {
    if a != [] && a[0] == b[0] == c[0] {
      TextTransitive(a[1..], b[1..], c[1..]);
    }
  }

  /** The two strings agree up to `k`, and there the first ends or has the smaller character. */
  ghost predicate ComesFirstAt(a: string, b: string, k: int) {
    && 0 <= k <= |a| && k <= |b| && a[..k] == b[..k]
    && (k == |a| || (k < |b| && a[k] < b[k]))
  }

  lemma AgreeingStart(a: string, b: string, k: int)
    requires 0 < k <= |a| && k <= |b| && a[..k] == b[..k]
    ensures a[0] == b[0]
  {
    assert a[..k][0] == b[..k][0];
  }

  /** The order is the lexicographic one. */
  lemma {:induction false} TextIsLexicographic(a: string, b: string)
    ensures TextLe(a, b) <==> exists k :: ComesFirstAt(a, b, k)
  {
    forall k | ComesFirstAt(a, b, k) && k > 0 ensures b != [] && a[0] == b[0] {
      AgreeingStart(a, b, k);
    }
    if a == [] {
      assert ComesFirstAt(a, b, 0);
    } else if b != [] && a[0] == b[0] {
      TextIsLexicographic(a[1..], b[1..]);
      if k :| ComesFirstAt(a[1..], b[1..], k) {
        assert a[..k + 1] == [a[0]] + a[1..][..k] && b[..k + 1] == [b[0]] + b[1..][..k];
        assert ComesFirstAt(a, b, k + 1);
      }
      if k :| ComesFirstAt(a, b, k) {
        assert k > 0 && a[1..][..k - 1] == a[..k][1..] && b[1..][..k - 1] == b[..k][1..];
        assert ComesFirstAt(a[1..], b[1..], k - 1);
      }
    } else if b != [] && a[0] < b[0] {
      assert ComesFirstAt(a, b, 0);
    }
  }

  /** What each part of a key decides: the role first, then the lower priority, then the id. */
  lemma LeIff(a: Rank, b: Rank)
    ensures Le(a, b) <==>
              || (a.role == PrimaryCapable && b.role == Follower)
              || (a.role == b.role && a.priority < b.priority)
              || (a.role == b.role && a.priority == b.priority && exists k :: ComesFirstAt(a.id, b.id, k))
  {
    TextIsLexicographic(a.id, b.id);
  }

  /** Any two keys compare, and they are mutually below each other only when they are
      the same key: this is what makes the minimum of a set of candidates unique. */
  lemma RankIsTotalOrder(a: Rank, b: Rank)
    ensures Le(a, b) || Le(b, a)
    ensures Le(a, b) && Le(b, a) <==> a == b
  {
    TextTotal(a.id, b.id);
    if Le(a, b) && Le(b, a) {
      TextAntisymmetric(a.id, b.id);
    }
    if a == b {
      TextReflexive(a.id);
    }
  }

  lemma RankTransitive(a: Rank, b: Rank, c: Rank)
    requires Le(a, b) && Le(b, c)
    ensures Le(a, c)
  {
    if a.role == b.role == c.role && a.priority == b.priority == c.priority {
      TextTransitive(a.id, b.id, c.id);
    }
  }
}
