/** Optional values, faults, and facts about collections, quotients and rounding, shared by the other modules. */
module Wrappers {
  datatype Option<+T> = None | Some(value: T)

  /** What a store answers: normally, or with an error before or after the statement took effect. */
  datatype Fault = NoFault | ErrorBefore | ErrorAfter

  lemma NonEmpty<T>(s: set<T>) returns (x: T)
    requires s != {}
    ensures x in s
  {
    x :| x in s;
  }

  lemma QuotientAgainst(x: real, y: real, c: real)
    requires y > 0.0
    ensures x / y >= c <==> x >= c * y
    ensures x / y <= c <==> x <= c * y
  {
    var r := x / y;
    assert r * y == x;
    assert r * y - c * y == (r - c) * y;
    if r > c {
      assert (r - c) * y > 0.0;
    } else if r < c {
      assert (c - r) * y > 0.0;
      assert (r - c) * y == -((c - r) * y);
    }
  }

  function Ceil(x: real): int {
    -((-x).Floor)
  }

  lemma CeilBounds(x: real)
    ensures Ceil(x) as real - 1.0 < x <= Ceil(x) as real
  {
  }

  lemma SplitLast<T>(s: seq<T>)
    requires s != []
    ensures multiset(s) == multiset(s[..|s| - 1]) + multiset{s[|s| - 1]}
  {
    assert s == s[..|s| - 1] + [s[|s| - 1]];
  }

  lemma Cancel<T>(x: T, a: multiset<T>, b: multiset<T>)
    requires a + multiset{x} == b + multiset{x}
    ensures a == b
  {
    assert a == a + multiset{x} - multiset{x};
    assert b == b + multiset{x} - multiset{x};
  }

  ghost predicate Injective<K(!new), T(!new)>(f: K -> T) {
    forall x, y :: f(x) == f(y) ==> x == y
  }

  /** The same map under other names for its keys. */
  ghost function Renamed<K(!new), T(!new), V>(m: map<K, V>, f: K -> T): map<T, V>
    requires Injective(f)
  {
    map k | k in m :: f(k) := m[k]
  }

  lemma RenamedFollows<K(!new), T(!new), V>(m: map<K, V>, f: K -> T, k: K, v: V)
    requires Injective(f)
    ensures f(k) in Renamed(m, f) <==> k in m
    ensures k in m ==> Renamed(m, f)[f(k)] == m[k]
    ensures Renamed(m[k := v], f) == Renamed(m, f)[f(k) := v]
  {
  }

  /** The places of a sequence at which a predicate holds. */
  ghost function Places<T>(s: seq<T>, p: T -> bool): set<int> {
    set i | 0 <= i < |s| && p(s[i])
  }

  lemma PlacesSnoc<T>(s: seq<T>, p: T -> bool)
    requires s != []
    ensures |Places(s, p)| == |Places(s[..|s| - 1], p)| + if p(s[|s| - 1]) then 1 else 0
  {
    var n := |s| - 1;
    assert Places(s, p) == Places(s[..n], p) + if p(s[n]) then {n} else {};
  }
}
