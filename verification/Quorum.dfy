/** The quorum size and the set-intersection facts that safety rests on. */
module Quorum {

  /** The least integer strictly above two thirds of `n`. */
  function QuorumSize(n: nat): (q: nat)
    ensures 3 * q > 2 * n
    ensures 3 * (q - 1) <= 2 * n
  {
    2 * n / 3 + 1
  }

  lemma SubsetSize<T>(a: set<T>, b: set<T>)
    requires a <= b
    ensures |a| <= |b|
  {
    assert b == a + (b - a);
  }

  lemma IntersectionSize<T>(universe: set<T>, a: set<T>, b: set<T>)
    requires a <= universe && b <= universe
    ensures |a * b| >= |a| + |b| - |universe|
  {
    assert |a + b| == |a| + |b| - |a * b|;
    SubsetSize(a + b, universe);
  }

  /** Two quorums share more than a third of the set. */
  lemma QuorumOverlap<T>(universe: set<T>, a: set<T>, b: set<T>)
    requires a <= universe && b <= universe
    requires |a| >= QuorumSize(|universe|) && |b| >= QuorumSize(|universe|)
    ensures |a * b| >= |universe| / 3 + 1
  {
    IntersectionSize(universe, a, b);
  }

  /** Two quorums share a member that is not faulty, when the faulty are fewer than any overlap. */
  lemma QuorumsShareCorrect<T>(universe: set<T>, faulty: set<T>, a: set<T>, b: set<T>) returns (p: T)
    requires |universe| + |faulty| < 2 * QuorumSize(|universe|)
    requires a <= universe && b <= universe
    requires |a| >= QuorumSize(|universe|) && |b| >= QuorumSize(|universe|)
    ensures p in a && p in b && p !in faulty
  {
    IntersectionSize(universe, a, b);
    if a * b <= faulty {
      SubsetSize(a * b, faulty);
      assert false;
    }
    p :| p in a * b && p !in faulty;
  }

  function Image<K, V>(keys: set<K>, f: K -> V): set<V> {
    set k | k in keys :: f(k)
  }

  /** Injective images have the size of their source. */
  lemma {:induction false} InjectiveImageSize<K, V>(keys: set<K>, f: K -> V)
    requires forall j, k :: j in keys && k in keys && f(j) == f(k) ==> j == k
    ensures |Image(keys, f)| == |keys|
    decreases |keys|
  {
    if keys != {} {
      var k :| k in keys;
      var rest := keys - {k};
      InjectiveImageSize(rest, f);
      assert Image(keys, f) == Image(rest, f) + {f(k)};
      assert f(k) !in Image(rest, f);
    }
  }
}
