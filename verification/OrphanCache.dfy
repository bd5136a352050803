/** The bounded cache of blocks whose parent is not yet known, with its three indices. */
module OrphanCache {
  import opened Prelude
  import opened EvictionQueue

  datatype Orphan = Orphan(hash: Hash, prevHash: Hash, body: nat)
  datatype Cached = Cached(stored: Orphan, insertedAt: nat)

  type Entries = map<Hash, Cached>

  /** Elapsed time saturates at zero. */
  predicate Expired(c: Cached, now: nat, ttl: nat) {
    now > c.insertedAt + ttl
  }

  /** The cached hashes with a given parent, by scanning the entries. */
  function Children(entries: Entries, parent: Hash): set<Hash> {
    set h | h in entries && entries[h].stored.prevHash == parent
  }

  /** `byParent` is the exact inverse of the entries' parents, without empty sets. */
  ghost predicate Indexed(entries: Entries, byParent: map<Hash, set<Hash>>) {
    (forall p :: p in byParent <==> Children(entries, p) != {}) &&
    forall p :: p in byParent ==> byParent[p] == Children(entries, p)
  }

  /** The unexpired entries only. */
  function Unexpired(entries: Entries, now: nat, ttl: nat): Entries {
    map h | h in entries && !Expired(entries[h], now, ttl) :: entries[h]
  }

  ghost predicate Ascending(blocks: seq<Orphan>) {
    forall i, j :: 0 <= i < j < |blocks| ==> blocks[i].hash < blocks[j].hash
  }

  class BlockTreeCache {
    const capacity: nat
    const ttl: nat
    var entries: Entries
    var byParent: map<Hash, set<Hash>>
    var insertionOrder: seq<Hash>

    ghost predicate IndicesAgree()
      reads this
    {
      capacity >= 1 && |entries| <= capacity &&
      (forall h :: h in entries ==> entries[h].stored.hash == h) &&
      Indexed(entries, byParent)
    }

    /** Within capacity, indices in agreement, every live hash still queued for eviction. */
    ghost predicate Valid()
      reads this
    {
      IndicesAgree() && forall h :: h in entries ==> h in insertionOrder
    }

    ghost function View(): Queue
      reads this
    {
      Queue(entries.Keys, insertionOrder)
    }

    constructor (capacity: nat, ttl: nat)
      ensures Valid() && entries == map[] && insertionOrder == []
      ensures this.capacity == (if capacity == 0 then 1 else capacity) && this.ttl == ttl
    {
      this.capacity := if capacity == 0 then 1 else capacity;
      this.ttl := ttl;
      entries := map[];
      byParent := map[];
      insertionOrder := [];
    }

    method Get(hash: Hash, now: nat) returns (r: Option<Orphan>)
      requires Valid()
      ensures r == if hash in Unexpired(entries, now, ttl) then Some(entries[hash].stored) else None
      ensures r.Some? <==> hash in entries && now <= entries[hash].insertedAt + ttl
    {
      if hash !in entries {
        return None;
      }
      if Expired(entries[hash], now, ttl) {
        return None;
      }
      return Some(entries[hash].stored);
    }

    method Remove(hash: Hash) returns (r: Option<Orphan>)
      requires IndicesAgree()
      modifies `entries, `byParent
      ensures IndicesAgree() && (old(Valid()) ==> Valid())
      ensures entries == old(entries) - {hash} && View() == Removed(old(View()), hash)
      ensures hash in old(entries) ==> |entries| == |old(entries)| - 1
      ensures r == if hash in old(entries) then Some(old(entries)[hash].stored) else None
    {
      KeysWithout(entries, hash);
      if hash !in entries {
        assert entries == entries - {hash};
        return None;
      }
      var cached := entries[hash];
      var parent := cached.stored.prevHash;
      IndexedWithout(entries, byParent, hash);
      entries := entries - {hash};
      if parent in byParent {
        var rest := byParent[parent] - {hash};
        byParent := byParent[parent := rest];
        if rest == {} {
          byParent := byParent - {parent};
        }
      }
      return Some(cached.stored);
    }

    /** Pops the queue up to and including its first live hash and drops that entry. */
    method EvictOldest()
      requires Valid() && entries != map[]
      modifies `entries, `byParent, `insertionOrder
      ensures Valid() && entries == old(entries) - {FirstLive(old(View()))} && |entries| == |old(entries)| - 1
      ensures View() == Evicted(old(View()))
      ensures IsOldest(old(View()), FirstLive(old(View()))) <==> OthersBehind(old(View()), FirstLive(old(View())))
    {
      ghost var was := View();
      while insertionOrder != []
        invariant Valid() && entries == old(entries)
        invariant FirstLive(View()) == FirstLive(old(View())) && Evicted(View()) == Evicted(old(View()))
        decreases |insertionOrder|
      {
        var hash := insertionOrder[0];
        PopHead(View());
        LiveAfterPop(entries, insertionOrder);
        insertionOrder := insertionOrder[1..];
        if hash in entries {
          var _ := Remove(hash);
          EvictsOldestIff(was);
          return;
        }
      }
      assert false;
    }

    /** A known hash only gets a fresh timestamp; a new one may push out the head of the queue. */
    method Insert(stored: Orphan, now: nat)
      requires Valid()
      modifies `entries, `byParent, `insertionOrder
      ensures Valid()
      ensures View() == Inserted(old(View()), stored.hash, capacity)
      ensures stored.hash in entries && entries[stored.hash].insertedAt == now
      ensures var h := stored.hash;
              if h in old(entries) then
                entries == old(entries)[h := old(entries)[h].(insertedAt := now)]
              else if |old(entries)| < capacity then
                entries == old(entries)[h := Cached(stored, now)]
              else
                entries == (old(entries) - {FirstLive(old(View()))})[h := Cached(stored, now)]
      ensures stored.hash !in old(entries) && |old(entries)| >= capacity ==>
                (IsOldest(old(View()), FirstLive(old(View()))) <==> OthersBehind(old(View()), FirstLive(old(View()))))
      ensures old(Aligned(View())) ==> (Aligned(View()) <==> Orderly(old(View()), InsertOp(stored.hash), capacity))
    {
      InsertOrder(View(), stored.hash, capacity);
      var hash := stored.hash;
      if hash in entries {
        IndexedRefresh(entries, byParent, hash, now);
        KeysWith(entries, hash, entries[hash].(insertedAt := now));
        entries := entries[hash := entries[hash].(insertedAt := now)];
        return;
      }
      if |entries| >= capacity {
        EvictOldest();
      }
      Add(stored, now);
    }

    method Add(stored: Orphan, now: nat)
      requires Valid() && stored.hash !in entries && |entries| < capacity
      modifies `entries, `byParent, `insertionOrder
      ensures Valid()
      ensures entries == old(entries)[stored.hash := Cached(stored, now)]
      ensures View() == Queue(old(entries).Keys + {stored.hash}, old(insertionOrder) + [stored.hash])
    {
      var parent := stored.prevHash;
      IndexedWith(entries, byParent, Cached(stored, now));
      KeysWith(entries, stored.hash, Cached(stored, now));
      entries := entries[stored.hash := Cached(stored, now)];
      var siblings := if parent in byParent then byParent[parent] else {};
      byParent := byParent[parent := siblings + {stored.hash}];
      insertionOrder := insertionOrder + [stored.hash];
    }

    /** Drops exactly the expired entries and counts them. */
    method PruneExpired(now: nat) returns (n: nat)
      requires Valid()
      modifies `entries, `byParent
      ensures Valid()
      ensures entries == Unexpired(old(entries), now, ttl)
      ensures n == |old(entries)| - |entries|
    {
      var victims := set h | h in entries && Expired(entries[h], now, ttl);
      WithoutExpired(entries, victims, now, ttl);
      n := |victims|;
      RemoveAll(victims);
    }

    method RemoveAll(hashes: set<Hash>)
      requires IndicesAgree()
      modifies `entries, `byParent
      ensures IndicesAgree() && entries == old(entries) - hashes
    {
      var todo := hashes;
      ghost var gone := {};
      while todo != {}
        invariant gone + todo == hashes && IndicesAgree()
        invariant entries == old(entries) - gone
        decreases todo
      {
        var h :| h in todo;
        MinusOneMore(old(entries), gone, todo, h);
        var _ := Remove(h);
        todo := todo - {h};
        gone := gone + {h};
      }
    }

    /** The unexpired children of a parent, in hash order: the same as a sorted scan of all entries. */
    method ChildrenOf(parent: Hash, now: nat) returns (blocks: seq<Orphan>)
      requires Valid()
      ensures Ascending(blocks)
      ensures forall b :: b in blocks <==>
                b.hash in Unexpired(entries, now, ttl) && entries[b.hash].stored == b && b.prevHash == parent
    {
      blocks := [];
      if parent !in byParent {
        assert Children(entries, parent) == {};
        return;
      }
      var hashes := byParent[parent];
      while hashes != {}
        invariant hashes <= Children(entries, parent) && Ascending(blocks)
        invariant forall b, h :: b in blocks && h in hashes ==> b.hash < h
        invariant forall b :: b in blocks <==>
                    b.hash in Children(entries, parent) - hashes && entries[b.hash].stored == b
                    && !Expired(entries[b.hash], now, ttl)
        decreases hashes
      {
        var h := Least(hashes);
        if !Expired(entries[h], now, ttl) {
          blocks := blocks + [entries[h].stored];
        }
        hashes := hashes - {h};
      }
    }
  }

  method Least(hashes: set<Hash>) returns (least: Hash)
    requires hashes != {}
    ensures least in hashes && forall h :: h in hashes ==> least <= h
  {
    least :| least in hashes;
    var todo := hashes - {least};
    while todo != {}
      invariant todo <= hashes && least in hashes && forall h :: h in hashes && h !in todo ==> least <= h
      decreases todo
    {
      var h :| h in todo;
      if h < least {
        least := h;
      }
      todo := todo - {h};
    }
  }

  lemma InsertOrder(q: Queue, hash: Hash, capacity: nat)
    requires QueueOk(q, capacity)
    ensures Listed(Inserted(q, hash, capacity))
    ensures Aligned(q) ==> (Aligned(Inserted(q, hash, capacity)) <==> Orderly(q, InsertOp(hash), capacity))
    ensures |q.live| >= capacity ==> (IsOldest(q, FirstLive(q)) <==> OthersBehind(q, FirstLive(q)))
  {
    InsertGap(q, hash, capacity);
    if Aligned(q) {
      StepAlignedIff(q, InsertOp(hash), capacity);
    }
    if |q.live| >= capacity {
      EvictsOldestIff(q);
    }
  }

  lemma KeysWith(entries: Entries, hash: Hash, c: Cached)
    ensures entries[hash := c].Keys == entries.Keys + {hash}
    ensures hash in entries ==> entries[hash := c].Keys == entries.Keys
  {
  }

  lemma KeysWithout(entries: Entries, hash: Hash)
    ensures (entries - {hash}).Keys == entries.Keys - {hash}
    ensures |entries - {hash}| == |entries| - if hash in entries then 1 else 0
  {
    assert (entries - {hash}).Keys == entries.Keys - {hash};
  }

  lemma MinusOneMore(entries: Entries, gone: set<Hash>, todo: set<Hash>, h: Hash)
    requires h in todo
    ensures entries - gone - {h} == entries - (gone + {h}) && gone + {h} + (todo - {h}) == gone + todo
  {
  }

  lemma WithoutExpired(entries: Entries, victims: set<Hash>, now: nat, ttl: nat)
    requires victims == set h | h in entries && Expired(entries[h], now, ttl)
    ensures entries - victims == Unexpired(entries, now, ttl)
    ensures |entries - victims| == |entries| - |victims|
  {
    assert (entries - victims).Keys == entries.Keys - victims;
  }

  lemma IndexedWithout(entries: Entries, byParent: map<Hash, set<Hash>>, hash: Hash)
    requires Indexed(entries, byParent) && hash in entries
    ensures var parent := entries[hash].stored.prevHash;
            parent in byParent &&
            var rest := byParent[parent] - {hash};
            Indexed(entries - {hash}, if rest == {} then byParent - {parent} else byParent[parent := rest])
  {
    var parent := entries[hash].stored.prevHash;
    assert hash in Children(entries, parent);
    forall p ensures Children(entries - {hash}, p) == if p == parent then Children(entries, p) - {hash} else Children(entries, p) {
    }
  }

  lemma IndexedWith(entries: Entries, byParent: map<Hash, set<Hash>>, c: Cached)
    requires Indexed(entries, byParent) && c.stored.hash !in entries
    ensures var parent := c.stored.prevHash;
            var siblings := if parent in byParent then byParent[parent] else {};
            Indexed(entries[c.stored.hash := c], byParent[parent := siblings + {c.stored.hash}])
  {
    var parent := c.stored.prevHash;
    forall p ensures Children(entries[c.stored.hash := c], p) ==
                     if p == parent then Children(entries, p) + {c.stored.hash} else Children(entries, p) {
    }
  }

  lemma IndexedRefresh(entries: Entries, byParent: map<Hash, set<Hash>>, hash: Hash, now: nat)
    requires Indexed(entries, byParent) && hash in entries
    ensures Indexed(entries[hash := entries[hash].(insertedAt := now)], byParent)
  {
    forall p ensures Children(entries[hash := entries[hash].(insertedAt := now)], p) == Children(entries, p) {
    }
  }

  lemma LiveAfterPop(entries: Entries, order: seq<Hash>)
    requires order != [] && forall h :: h in entries ==> h in order
    ensures forall h :: h in entries && h != order[0] ==> h in order[1..]
  {
  }

  /** A cache of one slot whose queue has any length: insert and remove the same block again and again. */
  method QueueOutgrowsCapacity(n: nat) returns (c: BlockTreeCache)
    ensures fresh(c) && c.Valid() && c.capacity == 1 && c.entries == map[] && |c.insertionOrder| == n
  {
    c := new BlockTreeCache(1, 60);
    for i := 0 to n
      invariant fresh(c) && c.Valid() && c.capacity == 1 && c.entries == map[] && |c.insertionOrder| == i
    {
      c.Insert(Orphan(7, 3, 0), i);
      var _ := c.Remove(7);
    }
  }
}
