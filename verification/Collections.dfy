/** Extensionality for finite sets and maps over integers, by induction on their size. */
module Collections {

  lemma SomeMember<T>(s: set<T>) returns (x: T)
    requires s != {}
    ensures x in s
  {
    x :| x in s;
  }

  lemma Rebuilt<K, V>(m: map<K, V>, k: K)
    requires k in m
    ensures m == (m - {k})[k := m[k]]
  {
  }

  lemma {:induction false} SameMaps<V>(m: map<int, V>, n: map<int, V>)
    requires forall k :: k in m <==> k in n
    requires forall k :: k in m ==> m[k] == n[k]
    ensures m == n
    decreases m.Keys
  {
    if n.Keys != {} {
      var _ := SomeMember(n.Keys);
    }
    if m.Keys != {} {
      var k := SomeMember(m.Keys);
      Rebuilt(m, k);
      Rebuilt(n, k);
      SameMaps(m - {k}, n - {k});
    }
  }

  lemma {:induction false} SameSets(a: set<int>, b: set<int>)
    requires forall k :: k in a <==> k in b
    ensures a == b
    decreases a
  {
    if b != {} {
      var _ := SomeMember(b);
    }
    if a != {} {
      var k := SomeMember(a);
      SameSets(a - {k}, b - {k});
      assert a == a - {k} + {k} && b == b - {k} + {k};
    }
  }

  // -------------------------------------------------------------------- sums

  /** Sum of f over the values of a map. */
  ghost function Sum<T>(m: map<nat, T>, f: T -> int): int
    decreases m.Keys
  {
    if m == map[] then 0
    else
      var k :| k in m;
      f(m[k]) + Sum(m - {k}, f)
  }

  /** Any key may be taken out first. */
  lemma {:induction false} SumSplit<T>(m: map<nat, T>, f: T -> int, k: nat)
    requires k in m
    ensures Sum(m, f) == f(m[k]) + Sum(m - {k}, f)
    decreases m.Keys
  {
    var c :| c in m && Sum(m, f) == f(m[c]) + Sum(m - {c}, f);
    if k != c {
      SumSplit(m - {c}, f, k);
      SumSplit(m - {k}, f, c);
      assert m - {c} - {k} == m - {k} - {c};
    }
  }

  lemma SumPut<T>(m: map<nat, T>, f: T -> int, k: nat, v: T)
    ensures Sum(m[k := v], f) == f(v) + (if k in m then Sum(m, f) - f(m[k]) else Sum(m, f))
  {
    SumSplit(m[k := v], f, k);
    assert m[k := v] - {k} == m - {k};
    if k in m {
      SumSplit(m, f, k);
    } else {
      assert m - {k} == m;
    }
  }

  /** A term-wise bound carries over to sums. */
  lemma {:induction false} SumAtMost<T>(m: map<nat, T>, f: T -> int, g: T -> int)
    requires forall k :: k in m ==> f(m[k]) <= g(m[k])
    ensures Sum(m, f) <= Sum(m, g)
    decreases m.Keys
  {
    if m != map[] {
      var k :| k in m;
      SumSplit(m, f, k);
      SumSplit(m, g, k);
      SumAtMost(m - {k}, f, g);
    }
  }
}
