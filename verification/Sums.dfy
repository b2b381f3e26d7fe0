/** Sums over the values of a finite map. */
module Sums {

  ghost function Total<K(!new)>(m: map<K, nat>): nat
    decreases |m|
  {
    if |m| == 0 then 0 else
      var k :| k in m;
      m[k] + Total(m - {k})
  }

  lemma TotalPick<K(!new)>(m: map<K, nat>) returns (j: K)
    requires |m| > 0
    ensures j in m && Total(m) == m[j] + Total(m - {j})
  {
    j :| j in m && Total(m) == m[j] + Total(m - {j});
  }

  lemma TotalEmpty<K(!new)>(m: map<K, nat>)
    requires |m| == 0
    ensures Total(m) == 0
  {
  }

  lemma {:induction false} TotalWithout<K(!new)>(m: map<K, nat>, k: K)
    requires k in m
    ensures Total(m) == m[k] + Total(m - {k})
    decreases |m|
  {
    hide Total;
    var j := TotalPick(m);
    if j != k {
      TotalWithout(m - {j}, k);
      TotalWithout(m - {k}, j);
      assert m - {j} - {k} == m - {k} - {j};
    }
  }

  lemma TotalWith<K(!new)>(m: map<K, nat>, k: K, n: nat)
    requires k !in m
    ensures Total(m[k := n]) == Total(m) + n
  {
    hide Total;
    TotalWithout(m[k := n], k);
    assert m[k := n] - {k} == m;
  }

  lemma {:induction false} TotalShrinks<K(!new)>(m: map<K, nat>, dead: set<K>)
    ensures Total(m - dead) <= Total(m)
    decreases dead
  {
    hide Total;
    if dead == {} {
      assert m - dead == m;
    } else {
      var k :| k in dead;
      var rest := m - (dead - {k});
      TotalShrinks(m, dead - {k});
      assert m - dead == rest - {k};
      TotalDrop(rest, k);
    }
  }

  lemma TotalDrop<K(!new)>(m: map<K, nat>, k: K)
    ensures Total(m - {k}) <= Total(m)
  {
    hide Total;
    if k in m {
      TotalWithout(m, k);
    } else {
      assert m - {k} == m;
    }
  }

  /** A smaller map has a smaller sum. */
  lemma {:induction false} TotalAtMost<K(!new)>(a: map<K, nat>, b: map<K, nat>)
    requires a.Keys <= b.Keys && forall k :: k in a ==> a[k] <= b[k]
    ensures Total(a) <= Total(b)
    decreases a.Keys
  {
    hide Total;
    if a.Keys == {} {
      TotalEmpty(a);
    } else {
      var k :| k in a.Keys;
      TotalWithout(a, k);
      TotalWithout(b, k);
      TotalAtMost(a - {k}, b - {k});
    }
  }

  lemma AddPut<K(!new), V(!new)>(a: map<K, V>, b: map<K, V>, k: K, v: V)
    ensures a + b[k := v] == (a + b)[k := v]
  {
  }

  lemma AddMinus<K(!new), V(!new)>(a: map<K, V>, b: map<K, V>)
    requires a.Keys !! b.Keys
    ensures (a + b) - b.Keys == a
  {
  }

  lemma {:induction false} TotalSplit<K(!new)>(a: map<K, nat>, b: map<K, nat>)
    requires a.Keys !! b.Keys
    ensures Total(a + b) == Total(a) + Total(b)
    decreases b.Keys
  {
    hide Total;
    if b.Keys == {} {
      TotalEmpty(b);
      assert a + b == a;
    } else {
      var k :| k in b.Keys;
      TotalWithout(b, k);
      var less := b - {k};
      TotalSplit(a, less);
      TotalWith(a + less, k, b[k]);
      AddPut(a, less, k, b[k]);
      assert less[k := b[k]] == b;
    }
  }
}
