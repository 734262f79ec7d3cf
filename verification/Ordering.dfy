/** Enumerating a finite set in the order of a strict total relation, as a sorted set does. */
module Ordering {
  import opened Text

  ghost predicate StrictTotal<T(!new)>(s: set<T>, less: (T, T) -> bool)
  {
    && (forall a | a in s :: !less(a, a))
    && (forall a, b | a in s && b in s && a != b :: less(a, b) != less(b, a))
    && (forall a, b, c | a in s && b in s && c in s && less(a, b) && less(b, c) :: less(a, c))
  }

  ghost predicate SortedBy<T(!new)>(q: seq<T>, less: (T, T) -> bool)
  {
    forall i, j | 0 <= i < j < |q| :: less(q[i], q[j])
  }

  ghost predicate Enumerates<T(!new)>(q: seq<T>, s: set<T>)
  {
    && (forall x :: x in q <==> x in s)
    && |q| == |s|
  }

  lemma {:induction false} LeastExists<T(!new)>(s: set<T>, less: (T, T) -> bool) returns (m: T)
    requires s != {} && StrictTotal(s, less)
    ensures m in s && forall x | x in s :: x == m || less(m, x)
    decreases |s|
  {
    var a :| a in s;
    if s == {a} {
      m := a;
    } else {
      var rest := s - {a};
      assert rest != {} by {
        assert s == rest + {a};
      }
      var b := LeastExists(rest, less);
      m := if less(a, b) then a else b;
      forall x | x in s
        ensures x == m || less(m, x)
      {
        assert x == a || x in rest;
      }
    }
  }

  function Least<T(!new, ==)>(s: set<T>, less: (T, T) -> bool): (m: T)
    requires s != {} && StrictTotal(s, less)
    ensures m in s && forall x | x in s :: x == m || less(m, x)
  {
    assert exists m :: m in s && forall x | x in s :: x == m || less(m, x) by {
      var m := LeastExists(s, less);
    }
    var m :| m in s && forall x | x in s :: x == m || less(m, x);
    m
  }

  /** The elements of s, least first. */
  function Sort<T(!new, ==)>(s: set<T>, less: (T, T) -> bool): (q: seq<T>)
    requires StrictTotal(s, less)
    ensures Enumerates(q, s)
    ensures SortedBy(q, less)
    decreases |s|
  {
    if s == {} then []
    else
      var m := Least(s, less);
      [m] + Sort(s - {m}, less)
  }

  lemma SortedHasNoRepeats<T(!new)>(q: seq<T>, s: set<T>, less: (T, T) -> bool)
    requires StrictTotal(s, less) && SortedBy(q, less)
    requires forall x :: x in q ==> x in s
    ensures forall i, j | 0 <= i < j < |q| :: q[i] != q[j]
  {
    forall i, j | 0 <= i < j < |q|
      ensures q[i] != q[j]
    {
      assert less(q[i], q[j]);
      assert q[i] in s;
    }
  }

  /** A sequence without repeats has as many elements as it has places. */
  lemma {:induction false} SetOfSize<T>(q: seq<T>)
    requires forall i, j | 0 <= i < j < |q| :: q[i] != q[j]
    ensures |set x | x in q| == |q|
  {
    if q != [] {
      var last := q[|q| - 1];
      var rest := q[..|q| - 1];
      SetOfSize(rest);
      assert last !in rest;
      assert (set x | x in q) == (set x | x in rest) + {last} by {
        assert q == rest + [last];
      }
    }
  }

  lemma SubsetSize<T>(a: set<T>, b: set<T>)
    requires a <= b
    ensures |a| <= |b|
  {
    assert b == a + (b - a);
  }

  /** As many pairs of a value and its key as there are keys. */
  lemma {:induction false} PairsSize<K(!new), V(!new)>(m: map<K, V>, keys: set<K>, pairs: set<(V, K)>)
    requires keys <= m.Keys
    requires forall p :: p in pairs <==> p.1 in keys && m[p.1] == p.0
    ensures |pairs| == |keys|
    decreases |keys|
  {
    if keys == {} {
      assert pairs == {};
    } else {
      var k :| k in keys;
      PairsSize(m, keys - {k}, pairs - {(m[k], k)});
    }
  }

  /** In a sorted enumeration the elements before position i are exactly the lesser ones, so
      there are i of them. */
  lemma Position<T(!new)>(q: seq<T>, s: set<T>, less: (T, T) -> bool, i: nat)
    requires StrictTotal(s, less) && SortedBy(q, less) && Enumerates(q, s)
    requires i < |q|
    ensures (set x | x in s && less(x, q[i])) == set x | x in q[..i]
    ensures |set x | x in s && less(x, q[i])| == i
  {
    SortedHasNoRepeats(q, s, less);
    var before := set x | x in s && less(x, q[i]);
    forall j | i <= j < |q|
      ensures !less(q[j], q[i])
    {
      assert q[i] in s && q[j] in s;
      assert i == j || less(q[i], q[j]);
    }
    forall x | x in before
      ensures x in q[..i]
    {
      var j :| 0 <= j < |q| && q[j] == x;
    }
    forall x | x in q[..i]
      ensures x in before
    {
      var j :| 0 <= j < i && q[j] == x;
      assert less(q[j], q[i]);
      assert x in q;
    }
    SetOfSize(q[..i]);
  }

  /** There is only one sorted enumeration. */
  lemma SortedUnique<T(!new)>(p: seq<T>, q: seq<T>, s: set<T>, less: (T, T) -> bool)
    requires StrictTotal(s, less)
    requires SortedBy(p, less) && Enumerates(p, s)
    requires SortedBy(q, less) && Enumerates(q, s)
    ensures p == q
  {
    forall i | 0 <= i < |p|
      ensures p[i] == q[i]
    {
      assert p[i] in q;
      var j :| 0 <= j < |q| && q[j] == p[i];
      Position(p, s, less, i);
      Position(q, s, less, j);
    }
  }

  // ---------- numbered keys ----------

  /** Entries of a scored set: by score, equal scores by the bytes of the key. */
  predicate ScoredBefore(a: (int, string), b: (int, string)) { a.0 < b.0 || (a.0 == b.0 && Less(a.1, b.1)) }

  lemma ScoredBeforeIsStrictTotal(s: set<(int, string)>)
    ensures StrictTotal(s, ScoredBefore)
  {
    forall a, b | a in s && b in s
      ensures !ScoredBefore(a, a)
      ensures a != b ==> ScoredBefore(a, b) != ScoredBefore(b, a)
    {
      LessIsStrictTotal(a.1, b.1);
    }
    forall a, b, c | a in s && b in s && c in s && ScoredBefore(a, b) && ScoredBefore(b, c)
      ensures ScoredBefore(a, c)
    {
      if a.0 == b.0 == c.0 { LessTransitive(a.1, b.1, c.1); }
    }
  }
}
