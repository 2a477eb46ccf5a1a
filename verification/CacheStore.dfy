/** The bounded package cache of scripts/m4-package-proxy.py: what each operation does to the
    files on disk and to the running size counter.

    A cache key is the hexadecimal digest of a URL.  Digests have one length, so the order of
    the file names is the order of the digests as numbers. */
module CacheStore {
  import opened Basics

  type Key = nat
  type Bytes = seq<bv8>

  const SCHEMA_VERSION := 1

  /** An object file. */
  datatype Body = Body(content: Bytes, mtime: real)

  datatype Metadata =
    | Metadata(schemaVersion: int, urlKey: Key, contentType: string, contentLength: int)
    | Unreadable

  /** The two directories, the partial downloads (one per key, since a key is locked while it is
      served) and the counter. */
  datatype Store = Store(bodies: map<Key, Body>, metas: map<Key, Metadata>, partials: map<Key, Body>, known: int)

  datatype Limits = Limits(maxBytes: nat, maxAge: real)

  /** What a hit promises the client. */
  datatype Artifact = Artifact(contentType: string, contentLength: nat)

  // ---------------------------------------------------------------- sizes

  function Size(bodies: map<Key, Body>, key: Key): nat {
    if key in bodies then |bodies[key].content| else 0
  }

  ghost function Total(bodies: map<Key, Body>): nat {
    if bodies == map[] then 0
    else var k :| k in bodies; Size(bodies, k) + Total(bodies - {k})
  }

  lemma {:induction false} TotalWithout(bodies: map<Key, Body>, key: Key)
    ensures Total(bodies) == Size(bodies, key) + Total(bodies - {key})
    decreases |bodies|
  {
    if key !in bodies {
      assert bodies - {key} == bodies;
    } else {
      var k :| k in bodies && Total(bodies) == Size(bodies, k) + Total(bodies - {k});
      if k != key {
        TotalWithout(bodies - {k}, key);
        TotalWithout(bodies - {key}, k);
        assert bodies - {k} - {key} == bodies - {key} - {k};
        assert Size(bodies - {k}, key) == Size(bodies, key) && Size(bodies - {key}, k) == Size(bodies, k);
      }
    }
  }

  lemma TotalUpdate(bodies: map<Key, Body>, key: Key, body: Body)
    ensures Total(bodies[key := body]) == Total(bodies) - Size(bodies, key) + |body.content|
  {
    TotalWithout(bodies, key);
    TotalWithout(bodies[key := body], key);
    assert bodies[key := body] - {key} == bodies - {key};
  }

  // ---------------------------------------------------------------- eviction order

  /** Oldest first; ties by size, then by file name. */
  predicate Before(a: Key, b: Key, bodies: map<Key, Body>)
    requires a in bodies && b in bodies
  {
    var x, y := bodies[a], bodies[b];
    || x.mtime < y.mtime
    || (x.mtime == y.mtime && (|x.content| < |y.content| || (|x.content| == |y.content| && a <= b)))
  }

  predicate IsOrder(order: seq<Key>, bodies: map<Key, Body>) {
    && (forall k | 0 <= k < |order| :: order[k] in bodies)
    && (forall key | key in bodies :: key in order)
    && (forall i, j | 0 <= i < j < |order| :: order[i] != order[j] && Before(order[i], order[j], bodies))
  }

  function Insert(order: seq<Key>, key: Key, bodies: map<Key, Body>): seq<Key>
    requires key in bodies && forall k | 0 <= k < |order| :: order[k] in bodies
  {
    if order == [] || Before(key, order[0], bodies) then [key] + order
    else [order[0]] + Insert(order[1..], key, bodies)
  }

  lemma {:induction false} InsertMembers(order: seq<Key>, key: Key, bodies: map<Key, Body>)
    requires key in bodies && forall k | 0 <= k < |order| :: order[k] in bodies
    ensures var r := Insert(order, key, bodies);
            |r| == |order| + 1 && forall x :: x in r <==> x == key || x in order
  {
    if order == [] || Before(key, order[0], bodies) {
    } else {
      InsertMembers(order[1..], key, bodies);
      assert forall x :: x in order <==> x == order[0] || x in order[1..];
    }
  }

  ghost predicate Ordered(order: seq<Key>, bodies: map<Key, Body>) {
    && (forall k | 0 <= k < |order| :: order[k] in bodies)
    && forall i, j | 0 <= i < j < |order| :: order[i] != order[j] && Before(order[i], order[j], bodies)
  }

  lemma {:induction false} InsertOrdered(order: seq<Key>, key: Key, bodies: map<Key, Body>)
    requires Ordered(order, bodies) && key in bodies && key !in order
    ensures Ordered(Insert(order, key, bodies), bodies)
  {
    var r := Insert(order, key, bodies);
    InsertMembers(order, key, bodies);
    if order == [] {
    } else if Before(key, order[0], bodies) {
      assert forall j | 1 <= j < |r| :: r[j] == order[j - 1];
    } else {
      var rest := Insert(order[1..], key, bodies);
      InsertOrdered(order[1..], key, bodies);
      InsertMembers(order[1..], key, bodies);
      forall j | 1 <= j < |r|
        ensures r[0] != r[j] && Before(r[0], r[j], bodies)
      {
        assert r[j] == rest[j - 1] && r[j] in rest;
        if r[j] != key {
          var k :| 0 <= k < |order[1..]| && order[1..][k] == r[j];
          assert order[k + 1] == r[j];
        }
      }
    }
  }

  ghost function Order(bodies: map<Key, Body>): (order: seq<Key>)
    ensures IsOrder(order, bodies)
  {
    if bodies == map[] then []
    else
      var key :| key in bodies;
      var rest := Order(bodies - {key});
      InsertMembers(rest, key, bodies);
      InsertOrdered(rest, key, bodies);
      Insert(rest, key, bodies)
  }

  lemma {:induction false} OrderUnique(a: seq<Key>, b: seq<Key>, bodies: map<Key, Body>)
    requires Ordered(a, bodies) && Ordered(b, bodies)
    requires forall key :: key in a <==> key in b
    ensures a == b
    decreases |a|
  {
    assert (a != [] ==> a[0] in b) && (b != [] ==> b[0] in a);
    if a != [] {
      var i :| 0 <= i < |b| && b[i] == a[0];
      var j :| 0 <= j < |a| && a[j] == b[0];
      assert a[0] == b[0];
      forall key
        ensures key in a[1..] <==> key in b[1..]
      {
        assert key in a <==> key == a[0] || key in a[1..];
        assert key in b <==> key == b[0] || key in b[1..];
        assert a[0] !in a[1..] && b[0] !in b[1..];
      }
      OrderUnique(a[1..], b[1..], bodies);
    }
  }

  // ---------------------------------------------------------------- pruning

  function SizeOf(order: seq<Key>, bodies: map<Key, Body>): nat {
    if order == [] then 0 else Size(bodies, order[0]) + SizeOf(order[1..], bodies)
  }

  lemma {:induction false} SizeOfWithout(order: seq<Key>, key: Key, bodies: map<Key, Body>)
    requires key !in order
    ensures SizeOf(order, bodies - {key}) == SizeOf(order, bodies)
  {
    if order != [] {
      SizeOfWithout(order[1..], key, bodies);
    }
  }

  lemma {:induction false} SizeOfAll(order: seq<Key>, bodies: map<Key, Body>)
    requires forall i, j | 0 <= i < j < |order| :: order[i] != order[j]
    requires forall key :: key in order <==> key in bodies
    ensures SizeOf(order, bodies) == Total(bodies)
    decreases |order|
  {
    assert order != [] ==> order[0] in bodies;
    if order == [] {
      assert bodies.Keys == {};
    } else {
      var rest := bodies - {order[0]};
      assert forall key :: key in order <==> key == order[0] || key in order[1..];
      SizeOfAll(order[1..], rest);
      SizeOfWithout(order[1..], order[0], bodies);
      TotalWithout(bodies, order[0]);
    }
  }

  /** How many of the oldest entries must go for the rest to fit. */
  function Excess(order: seq<Key>, bodies: map<Key, Body>, maxBytes: nat): (n: nat)
    ensures n <= |order|
  {
    if SizeOf(order, bodies) <= maxBytes then 0 else 1 + Excess(order[1..], bodies, maxBytes)
  }

  lemma {:induction false} ExcessLeast(order: seq<Key>, bodies: map<Key, Body>, maxBytes: nat, m: nat)
    requires m <= |order|
    ensures var n := Excess(order, bodies, maxBytes);
            (m == n ==> SizeOf(order[m..], bodies) <= maxBytes) && (m < n ==> SizeOf(order[m..], bodies) > maxBytes)
  {
    assert order[0..] == order;
    if SizeOf(order, bodies) > maxBytes && m > 0 {
      assert order[m..] == order[1..][m - 1..];
      ExcessLeast(order[1..], bodies, maxBytes, m - 1);
    }
  }

  lemma ExcessReached(order: seq<Key>, bodies: map<Key, Body>, maxBytes: nat, n: nat)
    requires n <= Excess(order, bodies, maxBytes)
    ensures SizeOf(order[n..], bodies) <= maxBytes <==> n == Excess(order, bodies, maxBytes)
  {
    ExcessLeast(order, bodies, maxBytes, n);
  }

  /** The entries that are neither expired nor without metadata. */
  function Live(s: Store, now: real, limits: Limits): map<Key, Body> {
    map key | key in s.bodies && key in s.metas && now - s.bodies[key].mtime <= limits.maxAge :: s.bodies[key]
  }

  function Restrict<V>(m: map<Key, V>, keys: set<Key>): map<Key, V> {
    map key | key in m && key in keys :: m[key]
  }

  /** Drops the partial downloads, what is not live, and then the oldest entries until the rest
      fits.  The counter becomes the size of the rest. */
  ghost function Prune(s: Store, now: real, limits: Limits): Store {
    var live := Live(s, now, limits);
    var kept := Kept(live, limits);
    Store(Restrict(live, kept), Restrict(s.metas, kept), map[], Total(Restrict(live, kept)))
  }

  /** The keys that survive size eviction. */
  ghost function Kept(live: map<Key, Body>, limits: Limits): set<Key> {
    var order := Order(live);
    set key | key in order[Excess(order, live, limits.maxBytes)..]
  }

  lemma KeptFits(live: map<Key, Body>, limits: Limits)
    ensures var order := Order(live);
            var n := Excess(order, live, limits.maxBytes);
            && Kept(live, limits) <= live.Keys
            && Total(Restrict(live, Kept(live, limits))) == SizeOf(order[n..], live) <= limits.maxBytes
  {
    var order := Order(live);
    var n := Excess(order, live, limits.maxBytes);
    ExcessLeast(order, live, limits.maxBytes, n);
    BackTotal(order, n, live);
  }

  lemma BackTotal(order: seq<Key>, n: nat, live: map<Key, Body>)
    requires IsOrder(order, live) && n <= |order|
    ensures var keys := set key | key in order[n..];
            keys <= live.Keys && Total(Restrict(live, keys)) == SizeOf(order[n..], live)
  {
    var kept := Restrict(live, set key | key in order[n..]);
    SizeOfAll(order[n..], kept);
    SizeOfSame(order[n..], live, kept);
  }

  /** Keeping the back of the order is dropping its front. */
  lemma KeepIsDrop<V>(order: seq<Key>, n: nat, live: map<Key, Body>, m: map<Key, V>)
    requires IsOrder(order, live) && n <= |order| && m.Keys <= live.Keys
    ensures Restrict(m, set key | key in order[n..]) == m - (set key | key in order[..n])
  {
  }

  lemma {:induction false} SizeOfSame(order: seq<Key>, a: map<Key, Body>, b: map<Key, Body>)
    requires forall key | key in order :: key in a && key in b && a[key] == b[key]
    ensures SizeOf(order, a) == SizeOf(order, b)
  {
    if order != [] {
      SizeOfSame(order[1..], a, b);
    }
  }

  /** The entry itself and everything the eviction would take after it. */
  ghost function FromOn(live: map<Key, Body>, key: Key): map<Key, Body>
    requires key in live
  {
    map k | k in live && Before(key, k, live) :: live[k]
  }

  lemma {:induction false} SizeOfShrinks(order: seq<Key>, bodies: map<Key, Body>, i: nat, j: nat)
    requires i <= j <= |order|
    ensures SizeOf(order[j..], bodies) <= SizeOf(order[i..], bodies)
    decreases j - i
  {
    if i < j {
      assert order[i..][1..] == order[i + 1..];
      SizeOfShrinks(order, bodies, i + 1, j);
    }
  }

  /** Eviction removes exactly the shortest oldest part: an entry survives iff it fits together
      with all entries after it in eviction order. */
  lemma Survives(live: map<Key, Body>, key: Key, limits: Limits)
    requires key in live
    ensures key in Kept(live, limits) <==> Total(FromOn(live, key)) <= limits.maxBytes
  {
    var order := Order(live);
    assert key in order;
    var i :| 0 <= i < |order| && order[i] == key;
    var later := FromOn(live, key);
    FromOnIsSuffix(live, order, i);
    SizeOfAll(order[i..], later);
    SizeOfSame(order[i..], live, later);
    SurvivesAt(order, live, i, Excess(order, live, limits.maxBytes), limits.maxBytes);
  }

  lemma SurvivesAt(order: seq<Key>, live: map<Key, Body>, i: nat, n: nat, maxBytes: nat)
    requires IsOrder(order, live) && i < |order| && n == Excess(order, live, maxBytes)
    ensures order[i] in order[n..] <==> SizeOf(order[i..], live) <= maxBytes
  {
    ExcessLeast(order, live, maxBytes, if i < n then i else n);
    if i >= n {
      SizeOfShrinks(order, live, n, i);
      assert order[n..][i - n] == order[i];
    } else {
      NotLater(order, i, n);
    }
  }

  lemma NotLater(order: seq<Key>, i: nat, n: nat)
    requires i < n <= |order| && forall a, b | 0 <= a < b < |order| :: order[a] != order[b]
    ensures order[i] !in order[n..]
  {
  }

  lemma FromOnIsSuffix(live: map<Key, Body>, order: seq<Key>, i: nat)
    requires IsOrder(order, live) && i < |order|
    ensures forall k :: k in order[i..] <==> k in FromOn(live, order[i])
  {
  }

  /** The entries with metadata that are not too old. */
  function Young(s: Store, oldest: real): map<Key, Body> {
    map key | key in s.bodies && key in s.metas && s.bodies[key].mtime >= oldest :: s.bodies[key]
  }

  /** An entry and the others that are younger, among equally old ones larger, and among equally large
      ones later by name. */
  function NoSooner(bodies: map<Key, Body>, key: Key): map<Key, Body>
    requires key in bodies
  {
    var x := bodies[key];
    map k | k in bodies
            && (k == key || bodies[k].mtime > x.mtime
                || (bodies[k].mtime == x.mtime
                    && (|bodies[k].content| > |x.content| || (|bodies[k].content| == |x.content| && k > key)))) ::
      bodies[k]
  }

  /** An entry survives pruning exactly when it has metadata, is not too old, and fits together with
      the entries that go no sooner. */
  lemma SurvivesPrune(s: Store, now: real, limits: Limits, key: Key)
    ensures key in Prune(s, now, limits).bodies <==>
              var young := Young(s, now - limits.maxAge);
              key in young && Total(NoSooner(young, key)) <= limits.maxBytes
  {
    YoungIsLive(s, now, limits);
    KeptInPrune(s, now, limits, key);
    var young := Young(s, now - limits.maxAge);
    if key in young {
      Survives(young, key, limits);
      NoSoonerIs(young, key);
    }
  }

  lemma YoungIsLive(s: Store, now: real, limits: Limits)
    ensures Young(s, now - limits.maxAge) == Live(s, now, limits)
  {
  }

  lemma NoSoonerIs(bodies: map<Key, Body>, key: Key)
    requires key in bodies
    ensures NoSooner(bodies, key) == FromOn(bodies, key)
  {
  }

  lemma KeptInPrune(s: Store, now: real, limits: Limits, key: Key)
    ensures var live := Live(s, now, limits);
            key in Prune(s, now, limits).bodies <==> key in live && key in Kept(live, limits)
  {
  }

  /** After pruning, bodies and metadata are in one-to-one correspondence, the counter is exact
      and within the bound, and nothing but live entries is left, unchanged. */
  lemma PruneResult(s: Store, now: real, limits: Limits)
    ensures var t := Prune(s, now, limits);
            && t.bodies.Keys == t.metas.Keys && t.known == Total(t.bodies) <= limits.maxBytes && t.partials == map[]
            && (forall key | key in t.bodies :: key in Live(s, now, limits) && t.bodies[key] == s.bodies[key])
            && (forall key | key in t.metas :: t.metas[key] == s.metas[key])
  {
    KeptFits(Live(s, now, limits), limits);
  }

  /** The same for one key. */
  lemma PruneAt(s: Store, now: real, limits: Limits, key: Key)
    ensures var t := Prune(s, now, limits);
            && (key in t.bodies <==> key in t.metas)
            && (key in t.bodies ==> key in s.bodies && t.bodies[key] == s.bodies[key])
            && (key in t.metas ==> key in s.metas && t.metas[key] == s.metas[key])
            && key !in t.partials
  {
  }

  /** A cache of live entries within its bound loses nothing but partial downloads. */
  lemma PruneIdle(s: Store, now: real, limits: Limits)
    requires s.bodies.Keys == s.metas.Keys && Live(s, now, limits) == s.bodies && Total(s.bodies) <= limits.maxBytes
    ensures Prune(s, now, limits) == Store(s.bodies, s.metas, map[], Total(s.bodies))
  {
    KeptAll(s.bodies, limits);
    RestrictAll(s.bodies, s.bodies.Keys);
    RestrictAll(s.metas, s.bodies.Keys);
  }

  lemma KeptAll(live: map<Key, Body>, limits: Limits)
    requires Total(live) <= limits.maxBytes
    ensures Kept(live, limits) == live.Keys
  {
    var order := Order(live);
    SizeOfAll(order, live);
    assert order[0..] == order;
  }

  lemma RestrictAll<V>(m: map<Key, V>, keys: set<Key>)
    requires m.Keys <= keys
    ensures Restrict(m, keys) == m
  {
  }

  // ---------------------------------------------------------------- lookup and commit

  /** The entry a lookup accepts: metadata of this schema for this key, and a body of the
      recorded length. */
  function Stored(s: Store, key: Key): Option<Artifact> {
    if key !in s.metas || s.metas[key].Unreadable? || key !in s.bodies then None
    else
      var m := s.metas[key];
      if m.schemaVersion == SCHEMA_VERSION && m.urlKey == key && m.contentLength == Size(s.bodies, key)
      then Some(Artifact(m.contentType, m.contentLength)) else None
  }

  function Clamped(known: int, size: nat): int {
    if size == 0 then known else if known - size < 0 then 0 else known - size
  }

  /** A lookup refreshes the entry's time or heals the cache by removing what it cannot serve. */
  function Lookup(s: Store, key: Key, now: real, touchFails: bool): (Store, Option<Artifact>) {
    var stored := Stored(s, key);
    if stored.Some? && !touchFails then
      (s.(bodies := s.bodies[key := s.bodies[key].(mtime := now)]), stored)
    else
      (s.(bodies := s.bodies - {key}, metas := s.metas - {key}, known := Clamped(s.known, Size(s.bodies, key))), None)
  }

  datatype CommitOutcome = Committed | PartialMissing | MetadataFailed

  /** The locked part of a commit: the body is replaced, then the metadata; when writing the
      metadata fails, the body is removed again.  A partial download that a concurrent prune has
      deleted fails the first replacement. */
  ghost function Commit(s: Store, key: Key, contentType: string, contentLength: nat, metadataFails: bool,
                        now: real, limits: Limits): (Store, CommitOutcome)
  {
    if key !in s.partials then (s, PartialMissing)
    else
      var previous := Size(s.bodies, key);
      var moved := s.(bodies := s.bodies[key := s.partials[key]], partials := s.partials - {key});
      if metadataFails then
        (moved.(bodies := s.bodies - {key}, known := Clamped(s.known, previous)), MetadataFailed)
      else
        (Settle(Installed(s, key, contentType, contentLength), now, limits), Committed)
  }

  /** Both files in place and counted. */
  function Installed(s: Store, key: Key, contentType: string, contentLength: nat): Store
    requires key in s.partials
  {
    Store(s.bodies[key := s.partials[key]],
          s.metas[key := Metadata(SCHEMA_VERSION, key, contentType, contentLength)],
          s.partials - {key},
          s.known + contentLength - Size(s.bodies, key))
  }

  ghost function Settle(s: Store, now: real, limits: Limits): Store {
    if s.known > limits.maxBytes then Prune(s, now, limits) else s
  }
}
