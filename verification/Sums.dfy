/** Sums of a finite map over a set of its keys. */
module Sums {

  ghost function Sum(m: map<nat, nat>, keys: set<nat>): nat
    requires keys <= m.Keys
  {
    if keys == {} then 0
    else
      var x :| x in keys;
      m[x] + Sum(m, keys - {x})
  }

  lemma {:induction false} SumPick(m: map<nat, nat>, keys: set<nat>, x: nat)
    requires keys <= m.Keys && x in keys
    ensures Sum(m, keys) == m[x] + Sum(m, keys - {x})
    decreases |keys|
  {
    var y :| y in keys && Sum(m, keys) == m[y] + Sum(m, keys - {y});
    if y != x {
      SumPick(m, keys - {y}, x);
      SumPick(m, keys - {x}, y);
      assert keys - {y} - {x} == keys - {x} - {y};
    }
  }

  lemma SumAdd(m: map<nat, nat>, keys: set<nat>, x: nat)
    requires keys <= m.Keys && x in m && x !in keys
    ensures Sum(m, keys + {x}) == Sum(m, keys) + m[x]
  {
    SumPick(m, keys + {x}, x);
    assert keys + {x} - {x} == keys;
  }

  /** Maps that agree on the keys have the same sum over them. */
  lemma {:induction false} SumAgree(m: map<nat, nat>, n: map<nat, nat>, keys: set<nat>)
    requires keys <= m.Keys && keys <= n.Keys && forall k :: k in keys ==> m[k] == n[k]
    ensures Sum(m, keys) == Sum(n, keys)
    decreases |keys|
  {
    if keys != {} {
      var x :| x in keys;
      SumAgree(m, n, keys - {x});
      SumPick(m, keys, x);
      SumPick(n, keys, x);
    }
  }

  /** Setting one entry shifts the total by its change. */
  lemma SumUpdate(m: map<nat, nat>, x: nat, v: nat)
    ensures var n := m[x := v]; Sum(n, n.Keys) == Sum(m, m.Keys - {x}) + v
    ensures Sum(m, m.Keys) == Sum(m, m.Keys - {x}) + if x in m then m[x] else 0
  {
    var n := m[x := v];
    SumPick(n, n.Keys, x);
    assert n.Keys - {x} == m.Keys - {x};
    SumAgree(m, n, m.Keys - {x});
    if x in m {
      SumPick(m, m.Keys, x);
    } else {
      assert m.Keys - {x} == m.Keys;
    }
  }
}
