/** The cache object: its operations, each the body of one critical section, against their
    specifications in CacheStore. */
module PackageCache {
  import opened Basics
  import opened CacheStore

  /** A lock has no state of its own here; only its identity matters. */
  class KeyLock {
    constructor () {
    }
  }

  class PackageCache {
    const limits: Limits
    var bodies: map<Key, Body>
    var metas: map<Key, Metadata>
    var partials: map<Key, Body>
    var knownSize: int
    var keyLocks: map<Key, KeyLock>

    function Files(): Store
      reads this
    {
      Store(bodies, metas, partials, knownSize)
    }

    /** Starts on whatever a previous process left on disk. */
    constructor (limits: Limits, found: Store, now: real)
      ensures Files() == Prune(found, now, limits)
      ensures this.limits == limits && keyLocks == map[]
    {
      this.limits := limits;
      bodies, metas, partials, knownSize := found.bodies, found.metas, found.partials, found.known;
      keyLocks := map[];
      new;
      knownSize := PruneLocked(now);
    }

    /** One lock per key for the whole life of the cache, and different keys never share one. */
    method LockFor(key: Key) returns (lock: KeyLock)
      requires DistinctLocks()
      modifies this`keyLocks
      ensures DistinctLocks()
      ensures key in keyLocks && keyLocks[key] == lock
      ensures old(keyLocks.Keys) <= keyLocks.Keys && forall k | k in old(keyLocks) :: keyLocks[k] == old(keyLocks[k])
      ensures key !in old(keyLocks) ==> fresh(lock)
    {
      if key !in keyLocks {
        lock := new KeyLock();
        keyLocks := keyLocks[key := lock];
      }
      lock := keyLocks[key];
    }

    ghost predicate DistinctLocks()
      reads this
    {
      forall a, b | a in keyLocks && b in keyLocks && a != b :: keyLocks[a] != keyLocks[b]
    }

    /** Serves the entry whose metadata are readable, of this schema and for this key, and describe
        the length of its body, and refreshes its time; or removes what is there for this key. */
    method LookUp(key: Key, now: real, touchFails: bool) returns (hit: Option<Artifact>)
      modifies this`bodies, this`metas, this`knownSize
      ensures hit.Some? <==>
                && !touchFails && key in old(metas) && old(metas)[key].Metadata? && key in old(bodies)
                && old(metas)[key]
                    == Metadata(SCHEMA_VERSION, key, old(metas)[key].contentType, |old(bodies)[key].content|)
      ensures bodies - {key} == old(bodies) - {key} && metas - {key} == old(metas) - {key}
      ensures hit.Some? ==>
                && hit.value == Artifact(old(metas)[key].contentType, |old(bodies)[key].content|)
                && bodies == old(bodies)[key := Body(old(bodies)[key].content, now)]
                && metas == old(metas) && knownSize == old(knownSize)
      ensures hit.None? ==>
                && key !in bodies && key !in metas
                && knownSize == if key in old(bodies) && old(bodies)[key].content != []
                                then Larger(0, old(knownSize) - |old(bodies)[key].content|) else old(knownSize)
      ensures (Files(), hit) == Lookup(old(Files()), key, now, touchFails)
    {
      if key in metas && metas[key].Metadata? && key in bodies {
        var m, size := metas[key], |bodies[key].content|;
        if m.schemaVersion == SCHEMA_VERSION && m.urlKey == key && m.contentLength == size && !touchFails {
          bodies := bodies[key := bodies[key].(mtime := now)];
          return Some(Artifact(m.contentType, m.contentLength));
        }
      }
      var invalidSize := 0;
      if key in bodies {
        invalidSize := |bodies[key].content|;
      }
      bodies := bodies - {key};
      metas := metas - {key};
      if invalidSize != 0 {
        knownSize := if knownSize - invalidSize < 0 then 0 else knownSize - invalidSize;
      }
      hit := None;
    }

    /** Replaces the body and then the metadata, counts the difference, and prunes when that is over
        the bound; a commit that cannot write its metadata takes its body away again. */
    method CommitLocked(key: Key, contentType: string, contentLength: nat, metadataFails: bool, now: real)
        returns (outcome: CommitOutcome)
      modifies this`bodies, this`metas, this`partials, this`knownSize
      ensures outcome == if key !in old(partials) then PartialMissing
                         else if metadataFails then MetadataFailed else Committed
      ensures outcome == PartialMissing ==> Files() == old(Files())
      ensures outcome == MetadataFailed ==>
                && bodies == old(bodies) - {key} && metas == old(metas) && partials == old(partials) - {key}
                && knownSize == if key in old(bodies) && old(bodies)[key].content != []
                                then Larger(0, old(knownSize) - |old(bodies)[key].content|) else old(knownSize)
      ensures outcome == Committed ==>
                var size := old(knownSize) + contentLength
                           - if key in old(bodies) then |old(bodies)[key].content| else 0;
                var committed := Store(old(bodies)[key := old(partials)[key]],
                                       old(metas)[key := Metadata(SCHEMA_VERSION, key, contentType, contentLength)],
                                       old(partials) - {key}, size);
                Files() == if size > limits.maxBytes then Prune(committed, now, limits) else committed
      ensures (Files(), outcome) == Commit(old(Files()), key, contentType, contentLength, metadataFails, now, limits)
    {
      var previousSize := 0;
      if key in bodies {
        previousSize := |bodies[key].content|;
      }
      if key !in partials {
        return PartialMissing;
      }
      var moved := partials[key];
      partials := partials - {key};
      bodies := bodies[key := moved];
      if metadataFails {
        bodies := bodies - {key};
        assert bodies == old(bodies) - {key};
        if previousSize != 0 {
          knownSize := if knownSize - previousSize < 0 then 0 else knownSize - previousSize;
        }
        return MetadataFailed;
      }
      metas := metas[key := Metadata(SCHEMA_VERSION, key, contentType, contentLength)];
      knownSize := knownSize + contentLength - previousSize;
      outcome := Committed;
      if knownSize > limits.maxBytes {
        knownSize := PruneLocked(now);
      }
    }

    method Discard(key: Key)
      modifies this`partials
      ensures partials == old(partials) - {key}
    {
      partials := partials - {key};
    }

    method NewPartial(key: Key, now: real)
      modifies this`partials
      ensures partials == old(partials)[key := Body([], now)]
    {
      partials := partials[key := Body([], now)];
    }

    /** A whole download that nothing interrupts.  One of the wrong length leaves no trace, any
        other is exactly a commit of all its chunks. */
    method StreamBinary(key: Key, chunks: seq<Bytes>, expected: Option<nat>, contentType: string,
                        metadataFails: bool, now: real)
        returns (outcome: Option<CommitOutcome>)
      requires key !in partials
      modifies this`bodies, this`metas, this`partials, this`knownSize
      ensures var body := Joined(chunks);
              if expected.Some? && expected.value != |body| then outcome.None? && Files() == old(Files())
              else
                outcome.Some? && outcome.value != PartialMissing
                && (Files(), outcome.value)
                   == Commit(Downloaded(old(Files()), key, body, now), key, contentType, |body|,
                            metadataFails, now, limits)
    {
      NewPartial(key, now);
      var downloaded := 0;
      for i := 0 to |chunks|
        invariant Files() == Downloaded(old(Files()), key, Joined(chunks[..i]), now)
                  && downloaded == |Joined(chunks[..i])|
      {
        assert chunks[..i + 1][..i] == chunks[..i];
        partials := partials[key := Body(partials[key].content + chunks[i], now)];
        downloaded := downloaded + |chunks[i]|;
      }
      assert chunks[..|chunks|] == chunks;
      if expected.Some? && downloaded != expected.value {
        Discard(key);
        assert partials == old(partials);
        return None;
      }
      var committed := CommitLocked(key, contentType, downloaded, metadataFails, now);
      if committed != Committed {
        ghost var left := partials;
        Discard(key);
        assert partials == left;
      }
      return Some(committed);
    }

    /** Removes what is not live, sorts the rest, and evicts from the front until it fits. */
    method PruneLocked(now: real) returns (total: int)
      modifies this`bodies, this`metas, this`partials
      ensures Files().(known := total) == Prune(old(Files()), now, limits)
    {
      ghost var s := Files();
      partials := map[];
      var order := SweepObjects(now);
      ghost var swept := metas;
      RemoveOrphans();
      ghost var described := metas;
      total := EvictOldest(order);
      PruneInStages(s, now, limits, swept, described, metas);
    }

    method SweepObjects(now: real) returns (order: seq<Key>)
      modifies this`bodies, this`metas
      ensures bodies == Live(old(Files()), now, limits)
      ensures order == Order(bodies)
      ensures Restrict(metas, bodies.Keys) == Restrict(old(metas), bodies.Keys)
    {
      ghost var live, described := Live(Files(), now, limits), metas;
      order := [];
      var found := bodies;
      var todo := found.Keys;
      SweepStart(found, live);
      while todo != {}
        invariant todo <= found.Keys
        invariant bodies == Restrict(found, live.Keys + todo)
        invariant metas == described - (found.Keys - live.Keys - todo)
        invariant order == Order(Restrict(live, found.Keys - todo))
        decreases todo
      {
        var key :| key in todo;
        if key !in metas || now - bodies[key].mtime > limits.maxAge {
          SweepDead(found, described, live, todo, key);
          bodies := bodies - {key};
          metas := metas - {key};
        } else {
          SweepLive(found, live, todo, key);
          order := Insert(order, key, found);
        }
        todo := todo - {key};
      }
      SweepDone(found, described, live);
    }

    method RemoveOrphans()
      modifies this`metas
      ensures metas == Restrict(old(metas), bodies.Keys)
    {
      ghost var described := metas;
      var orphans := metas.Keys - bodies.Keys;
      assert metas == Restrict(metas, bodies.Keys + orphans);
      while orphans != {}
        invariant metas == Restrict(described, bodies.Keys + orphans) && orphans !! bodies.Keys
        decreases orphans
      {
        var key :| key in orphans;
        OrphanStep(described, bodies.Keys, orphans, key);
        orphans := orphans - {key};
        metas := metas - {key};
      }
      assert bodies.Keys + orphans == bodies.Keys;
    }

    method TotalOf(order: seq<Key>) returns (total: nat)
      requires forall key | key in order :: key in bodies
      ensures total == SizeOf(order, bodies)
    {
      total := 0;
      for i := 0 to |order|
        invariant total + SizeOf(order[i..], bodies) == SizeOf(order, bodies)
      {
        assert order[i..][1..] == order[i + 1..] && order[i] in order;
        total := total + |bodies[order[i]].content|;
      }
    }

    method EvictOldest(order: seq<Key>) returns (total: int)
      requires order == Order(bodies) && metas.Keys <= bodies.Keys
      modifies this`bodies, this`metas
      ensures var kept := Kept(old(bodies), limits);
              && bodies == Restrict(old(bodies), kept) && metas == Restrict(old(metas), kept)
              && total == Total(bodies)
    {
      ghost var live, described := bodies, metas;
      total := TotalOf(order);
      OrderDistinct(order, live);
      total := EvictFrom(order, total);
      EvictDone(order, live, described, limits);
    }

    /** Takes entries off the front of the order while the total is over the bound. */
    method EvictFrom(order: seq<Key>, found: int) returns (total: int)
      requires Distinct(order) && Front(order, |order|) <= bodies.Keys && found == SizeOf(order, bodies)
      modifies this`bodies, this`metas
      ensures var n := Excess(order, old(bodies), limits.maxBytes);
              && total == SizeOf(order[n..], old(bodies))
              && bodies == old(bodies) - Front(order, n) && metas == old(metas) - Front(order, n)
    {
      ghost var live, described := bodies, metas;
      ghost var excess := Excess(order, live, limits.maxBytes);
      var n := 0;
      total := found;
      assert order[0..] == order;
      while n < |order| && total > limits.maxBytes
        invariant 0 <= n <= excess && total == SizeOf(order[n..], live)
        invariant bodies == live - Front(order, n) && metas == described - Front(order, n)
      {
        EvictNext(order, n, live, described, limits.maxBytes);
        var key := order[n];
        total := total - |bodies[key].content|;
        bodies := bodies - {key};
        metas := metas - {key};
        n := n + 1;
      }
      ExcessReached(order, live, limits.maxBytes, n);
    }
  }

  function Larger(a: int, b: int): int {
    if a < b then b else a
  }

  /** The chunks one after the other. */
  lemma {:induction false} JoinedParts(a: seq<Bytes>, b: seq<Bytes>, chunk: Bytes)
    ensures Joined(a + b) == Joined(a) + Joined(b) && Joined([chunk]) == chunk && Joined([]) == []
  {
    assert [chunk][..0] == [];
    if b == [] {
      assert a + b == a;
    } else {
      var n := |b| - 1;
      JoinedParts(a, b[..n], chunk);
      assert (a + b)[..|a| + n] == a + b[..n] && (a + b)[|a| + n] == b[n];
    }
  }

  function Joined(chunks: seq<Bytes>): Bytes {
    if chunks == [] then [] else Joined(chunks[..|chunks| - 1]) + chunks[|chunks| - 1]
  }

  /** The files with one more partial download. */
  function Downloaded(s: Store, key: Key, body: Bytes, now: real): Store {
    s.(partials := s.partials[key := Body(body, now)])
  }

  /** The first n keys of an order. */
  ghost function Front(order: seq<Key>, n: nat): set<Key>
    requires n <= |order|
  {
    set k | k in order[..n]
  }

  lemma EvictStep<V>(order: seq<Key>, n: nat, all: map<Key, V>)
    requires n < |order|
    ensures all - Front(order, n) - {order[n]} == all - Front(order, n + 1)
  {
  }

  lemma EvictNext(order: seq<Key>, n: nat, live: map<Key, Body>, described: map<Key, Metadata>, maxBytes: nat)
    requires Distinct(order) && Front(order, |order|) <= live.Keys && n < |order|
    requires n <= Excess(order, live, maxBytes)
    requires SizeOf(order[n..], live) > maxBytes
    ensures n < Excess(order, live, maxBytes)
    ensures order[n] in live - Front(order, n)
    ensures SizeOf(order[n..], live) == |(live - Front(order, n))[order[n]].content| + SizeOf(order[n + 1..], live)
    ensures live - Front(order, n) - {order[n]} == live - Front(order, n + 1)
    ensures described - Front(order, n) - {order[n]} == described - Front(order, n + 1)
  {
    ExcessReached(order, live, maxBytes, n);
    assert order[n..][1..] == order[n + 1..];
    NotEarlier(order, n);
    EvictStep(order, n, live);
    EvictStep(order, n, described);
  }

  ghost predicate Distinct(order: seq<Key>) {
    order != [] ==> order[0] !in order[1..] && Distinct(order[1..])
  }

  lemma {:induction false} NotEarlier(order: seq<Key>, n: nat)
    requires Distinct(order) && n < |order|
    ensures order[n] !in order[..n] && order[n] in Front(order, |order|)
  {
    assert order[..|order|] == order;
    if n > 0 {
      NotEarlier(order[1..], n - 1);
      assert order[..n] == [order[0]] + order[1..][..n - 1];
    }
  }

  lemma {:induction false} OrderDistinct(order: seq<Key>, live: map<Key, Body>)
    requires Ordered(order, live)
    ensures Distinct(order) && Front(order, |order|) <= live.Keys
    decreases |order|
  {
    assert order[..|order|] == order;
    if order != [] {
      OrderDistinct(order[1..], live);
    }
  }

  lemma EvictDone(order: seq<Key>, live: map<Key, Body>, described: map<Key, Metadata>, limits: Limits)
    requires order == Order(live) && described.Keys <= live.Keys
    ensures var kept, n := Kept(live, limits), Excess(order, live, limits.maxBytes);
            && live - Front(order, n) == Restrict(live, kept)
            && described - Front(order, n) == Restrict(described, kept)
            && SizeOf(order[n..], live) == Total(Restrict(live, kept))
  {
    var n := Excess(order, live, limits.maxBytes);
    KeepIsDrop(order, n, live, live);
    KeepIsDrop(order, n, live, described);
    KeptFits(live, limits);
  }

  lemma OrphanStep(described: map<Key, Metadata>, keys: set<Key>, orphans: set<Key>, key: Key)
    requires key in orphans && orphans !! keys
    ensures Restrict(described, keys + orphans) - {key} == Restrict(described, keys + (orphans - {key}))
  {
  }

  /** The three stages of a prune, put together. */
  lemma PruneInStages(s: Store, now: real, limits: Limits, swept: map<Key, Metadata>, described: map<Key, Metadata>,
                      left: map<Key, Metadata>)
    requires var live := Live(s, now, limits);
             && Restrict(swept, live.Keys) == Restrict(s.metas, live.Keys)
             && described == Restrict(swept, live.Keys)
             && left == Restrict(described, Kept(live, limits))
    ensures left == Prune(s, now, limits).metas
  {
  }

  lemma SweepStart(found: map<Key, Body>, live: map<Key, Body>)
    requires live.Keys <= found.Keys
    ensures found == Restrict(found, live.Keys + found.Keys) && Restrict(live, found.Keys - found.Keys) == map[]
    ensures Order(map[]) == []
  {
  }

  lemma SweepDead(found: map<Key, Body>, described: map<Key, Metadata>, live: map<Key, Body>, todo: set<Key>, key: Key)
    requires key in todo && key !in live && todo <= found.Keys
    ensures Restrict(found, live.Keys + todo) - {key} == Restrict(found, live.Keys + (todo - {key}))
    ensures described - (found.Keys - live.Keys - todo) - {key} == described - (found.Keys - live.Keys - (todo - {key}))
    ensures Restrict(live, found.Keys - todo) == Restrict(live, found.Keys - (todo - {key}))
  {
  }

  lemma SweepLive(found: map<Key, Body>, live: map<Key, Body>, todo: set<Key>, key: Key)
    requires key in todo && key in live && todo <= found.Keys
    requires forall k | k in live :: k in found && live[k] == found[k]
    ensures Restrict(found, live.Keys + todo) == Restrict(found, live.Keys + (todo - {key}))
    ensures found.Keys - live.Keys - todo == found.Keys - live.Keys - (todo - {key})
    ensures var order := Order(Restrict(live, found.Keys - todo));
            && (forall k | k in order :: k in found)
            && Insert(order, key, found) == Order(Restrict(live, found.Keys - (todo - {key})))
  {
    OrderMore(found, Restrict(live, found.Keys - todo), Restrict(live, found.Keys - (todo - {key})), key);
  }

  lemma OrderMore(found: map<Key, Body>, seen: map<Key, Body>, more: map<Key, Body>, key: Key)
    requires key !in seen && key in found && more == seen[key := found[key]]
    requires forall k | k in seen :: k in found && seen[k] == found[k]
    ensures (forall k | k in Order(seen) :: k in found) && Insert(Order(seen), key, found) == Order(more)
  {
    SameOrder(Order(seen), seen, found);
    SameOrder(Order(more), more, found);
    InsertOrdered(Order(seen), key, found);
    MoreMembers(found, seen, more, key);
    OrderUnique(Insert(Order(seen), key, found), Order(more), found);
  }

  lemma MoreMembers(found: map<Key, Body>, seen: map<Key, Body>, more: map<Key, Body>, key: Key)
    requires key !in seen && key in found && more == seen[key := found[key]]
    requires forall k | k in seen :: k in found
    ensures forall k | k in Order(seen) :: k in found
    ensures forall k :: k in Insert(Order(seen), key, found) <==> k in Order(more)
  {
    var order := Order(seen);
    assert forall k :: k in order <==> k in seen;
    assert forall k :: k in Order(more) <==> k in more;
    InsertMembers(order, key, found);
  }

  lemma SameOrder(order: seq<Key>, a: map<Key, Body>, b: map<Key, Body>)
    requires Ordered(order, a) && forall k | k in a :: k in b && a[k] == b[k]
    ensures Ordered(order, b)
  {
  }

  lemma SweepDone(found: map<Key, Body>, described: map<Key, Metadata>, live: map<Key, Body>)
    requires forall k | k in live :: k in found && live[k] == found[k]
    ensures Restrict(found, live.Keys + {}) == live && Restrict(live, found.Keys - {}) == live
    ensures var metas := described - (found.Keys - live.Keys - {});
            Restrict(metas, live.Keys) == Restrict(described, live.Keys)
  {
  }
}
