/**
 * The binary Merkle root with odd-node self-pairing. `h` stands for the tagged
 * hash under the branch domain, applied to a body of whole digests.
 */
module Merkle {
  import opened Prelude

  // ----- Ideal hashing -----

  ghost predicate CollisionFree<D(!new)>(h: seq<D> -> D) {
    forall x, y :: h(x) == h(y) ==> x == y
  }

  /** Domain separation: a leaf digest is no branch digest. */
  ghost predicate IsLeaf<D(!new)>(h: seq<D> -> D, d: D) {
    forall body :: h(body) != d
  }

  ghost predicate AllLeaves<D(!new)>(h: seq<D> -> D, leaves: seq<D>) {
    forall i :: 0 <= i < |leaves| ==> IsLeaf(h, leaves[i])
  }

  // ----- The root -----

  /** The body hashed for position `i` of the next layer; a lone last node pairs with itself. */
  function Pair<D>(layer: seq<D>, i: nat): seq<D>
    requires 2 * i < |layer|
  {
    [layer[2 * i], if 2 * i + 1 < |layer| then layer[2 * i + 1] else layer[2 * i]]
  }

  function NextLayer<D>(h: seq<D> -> D, layer: seq<D>): (next: seq<D>)
    ensures |next| == (|layer| + 1) / 2
    ensures forall i :: 0 <= i < |next| ==> next[i] == h(Pair(layer, i))
  {
    seq((|layer| + 1) / 2, i requires 0 <= i < (|layer| + 1) / 2 => h(Pair(layer, i)))
  }

  function Root<D>(h: seq<D> -> D, layer: seq<D>): D
    requires |layer| > 0
    decreases |layer|
  {
    if |layer| == 1 then layer[0] else Root(h, NextLayer(h, layer))
  }

  function MerkleRoot<D>(h: seq<D> -> D, leaves: seq<D>): D {
    if |leaves| == 0 then h([]) else Root(h, leaves)
  }

  method BinaryMerkleRoot<D>(h: seq<D> -> D, leaves: seq<D>) returns (root: D)
    ensures root == MerkleRoot(h, leaves)
  {
    if |leaves| == 0 {
      return h([]);
    }
    var layer := leaves;
    while |layer| > 1
      invariant |layer| > 0 && Root(h, layer) == Root(h, leaves)
      decreases |layer|
    {
      var next := [];
      var at := 0;
      while at < |layer|
        invariant at == 2 * |next| <= |layer| + 1
        invariant forall i :: 0 <= i < |next| ==> next[i] == h(Pair(layer, i))
      {
        var left := layer[at];
        var right := if at + 1 < |layer| then layer[at + 1] else layer[at];
        assert [left, right] == Pair(layer, |next|);
        next := next + [h([left, right])];
        at := at + 2;
      }
      assert next == NextLayer(h, layer);
      layer := next;
    }
    return layer[0];
  }

  // ----- Binding -----

  /** `d` is the root of a complete tree of height `k` over leaves. */
  ghost predicate AtLevel<D(!new)>(h: seq<D> -> D, k: nat, d: D) {
    if k == 0 then IsLeaf(h, d)
    else exists a, b :: AtLevel(h, k - 1, a) && AtLevel(h, k - 1, b) && d == h([a, b])
  }

  ghost predicate AllAtLevel<D(!new)>(h: seq<D> -> D, k: nat, layer: seq<D>) {
    forall i :: 0 <= i < |layer| ==> AtLevel(h, k, layer[i])
  }

  lemma {:induction false} LevelsDisjoint<D(!new)>(h: seq<D> -> D, j: nat, k: nat, d: D)
    requires CollisionFree(h) && AtLevel(h, j, d) && AtLevel(h, k, d)
    ensures j == k
  {
    if j > 0 && k > 0 {
      var a, b :| AtLevel(h, j - 1, a) && AtLevel(h, j - 1, b) && d == h([a, b]);
      var a', b' :| AtLevel(h, k - 1, a') && AtLevel(h, k - 1, b') && d == h([a', b']);
      assert [a, b][0] == [a', b'][0];
      LevelsDisjoint(h, j - 1, k - 1, a);
    }
  }

  lemma NextLayerLevel<D(!new)>(h: seq<D> -> D, k: nat, layer: seq<D>)
    requires AllAtLevel(h, k, layer)
    ensures AllAtLevel(h, k + 1, NextLayer(h, layer))
  {
    var next := NextLayer(h, layer);
    forall i | 0 <= i < |next| ensures AtLevel(h, k + 1, next[i]) {
      var body := Pair(layer, i);
      assert AtLevel(h, k, body[0]) && AtLevel(h, k, body[1]) && next[i] == h([body[0], body[1]]);
    }
  }

  /** A root sits at the level of its layer, or above when the layer has several nodes. */
  lemma {:induction false} RootLevel<D(!new)>(h: seq<D> -> D, k: nat, layer: seq<D>) returns (top: nat)
    requires |layer| > 0 && AllAtLevel(h, k, layer)
    ensures AtLevel(h, top, Root(h, layer)) && top >= k && (|layer| > 1 ==> top > k)
    decreases |layer|
  {
    if |layer| == 1 {
      top := k;
    } else {
      NextLayerLevel(h, k, layer);
      top := RootLevel(h, k + 1, NextLayer(h, layer));
    }
  }

  lemma NextLayerDistinct<D(!new)>(h: seq<D> -> D, layer: seq<D>)
    requires CollisionFree(h) && Distinct(layer)
    ensures Distinct(NextLayer(h, layer))
  {
    var next := NextLayer(h, layer);
    forall i, j | 0 <= i < j < |next| ensures next[i] != next[j] {
      assert Pair(layer, i)[0] != Pair(layer, j)[0];
    }
  }

  /** A layer of distinct nodes is determined by the next layer, despite the self-pairing. */
  lemma NextLayerInjective<D(!new)>(h: seq<D> -> D, s: seq<D>, t: seq<D>)
    requires CollisionFree(h) && Distinct(s) && Distinct(t)
    requires NextLayer(h, s) == NextLayer(h, t)
    ensures s == t
  {
    var n := |NextLayer(h, s)|;
    forall i | 0 <= i < n ensures Pair(s, i) == Pair(t, i) {
      assert NextLayer(h, s)[i] == NextLayer(h, t)[i];
    }
    if n > 0 {
      assert Pair(s, n - 1)[0] == Pair(t, n - 1)[0] && Pair(s, n - 1)[1] == Pair(t, n - 1)[1];
      assert |s| == |t|;
    }
    forall i | 0 <= i < |s| ensures s[i] == t[i] {
      assert s[i] == Pair(s, i / 2)[i % 2] && t[i] == Pair(t, i / 2)[i % 2];
    }
  }

  lemma {:induction false} RootInjective<D(!new)>(h: seq<D> -> D, k: nat, s: seq<D>, t: seq<D>)
    requires CollisionFree(h) && |s| > 0 && |t| > 0
    requires Distinct(s) && Distinct(t) && AllAtLevel(h, k, s) && AllAtLevel(h, k, t)
    requires Root(h, s) == Root(h, t)
    ensures s == t
    decreases |s|
  {
    var i := RootLevel(h, k, s);
    var j := RootLevel(h, k, t);
    LevelsDisjoint(h, i, j, Root(h, s));
    if |s| > 1 {
      if |t| == 1 {
        LevelsDisjoint(h, i, k, t[0]);
      }
      NextLayerLevel(h, k, s);
      NextLayerLevel(h, k, t);
      NextLayerDistinct(h, s);
      NextLayerDistinct(h, t);
      RootInjective(h, k + 1, NextLayer(h, s), NextLayer(h, t));
      NextLayerInjective(h, s, t);
    } else {
      LevelsDisjoint(h, j, k, s[0]);
    }
  }

  /** Equal roots of lists of distinct leaves, of any lengths and including empty, mean equal lists. */
  lemma RootBinds<D(!new)>(h: seq<D> -> D, s: seq<D>, t: seq<D>)
    requires CollisionFree(h) && AllLeaves(h, s) && AllLeaves(h, t) && Distinct(s) && Distinct(t)
    ensures MerkleRoot(h, s) == MerkleRoot(h, t) <==> s == t
  {
    assert AllAtLevel(h, 0, s) && AllAtLevel(h, 0, t);
    if MerkleRoot(h, s) == MerkleRoot(h, t) {
      if |s| > 0 && |t| > 0 {
        RootInjective(h, 0, s, t);
      } else if |s| > 0 {
        NoTreeIsEmpty(h, s);
      } else if |t| > 0 {
        NoTreeIsEmpty(h, t);
      }
    }
  }

  /** No nonempty list has the root of the empty list. */
  lemma NoTreeIsEmpty<D(!new)>(h: seq<D> -> D, s: seq<D>)
    requires CollisionFree(h) && |s| > 0 && AllLeaves(h, s)
    ensures MerkleRoot(h, s) != MerkleRoot(h, [])
  {
    assert AllAtLevel(h, 0, s);
    var top := RootLevel(h, 0, s);
    if top > 0 {
      var a, b :| AtLevel(h, top - 1, a) && AtLevel(h, top - 1, b) && Root(h, s) == h([a, b]);
      assert |[a, b]| == 2;
    }
  }

  /** Distinctness is needed: repeating the last of an odd number of leaves keeps the root. */
  lemma RepeatedLastLeafCollides<D(!new)>(h: seq<D> -> D, s: seq<D>)
    requires |s| % 2 == 1 && |s| > 1
    ensures MerkleRoot(h, s) == MerkleRoot(h, s + [s[|s| - 1]])
  {
    var t := s + [s[|s| - 1]];
    forall i | 0 <= i < (|s| + 1) / 2 ensures Pair(s, i) == Pair(t, i) {
    }
    assert NextLayer(h, s) == NextLayer(h, t);
  }

  // ----- Shape -----

  function Pow2(k: nat): (n: nat)
    ensures n > 0
  {
    if k == 0 then 1 else 2 * Pow2(k - 1)
  }

  lemma LayerSplits<D>(h: seq<D> -> D, left: seq<D>, right: seq<D>)
    requires |left| % 2 == 0
    ensures NextLayer(h, left + right) == NextLayer(h, left) + NextLayer(h, right)
  {
    var both := left + right;
    forall i | 0 <= i < (|both| + 1) / 2
      ensures Pair(both, i) == if i < |left| / 2 then Pair(left, i) else Pair(right, i - |left| / 2)
    {
    }
  }

  /** The root of two full subtrees of one size hashes the left root before the right. */
  lemma {:induction false} RootSplits<D>(h: seq<D> -> D, left: seq<D>, right: seq<D>, k: nat)
    requires |left| == |right| == Pow2(k)
    ensures Root(h, left + right) == h([Root(h, left), Root(h, right)])
    decreases k
  {
    if k == 0 {
      assert NextLayer(h, left + right) == [h(left + right)] && left + right == [left[0], right[0]];
    } else {
      LayerSplits(h, left, right);
      RootSplits(h, NextLayer(h, left), NextLayer(h, right), k - 1);
    }
  }
}
