/** When a crash can make the cache serve something else than the latest commit: only after a
    stored entry could not be opened, and then it does. */
module CacheCrash {
  import opened Basics
  import opened CacheStore
  import opened CacheRuns

  // ---------------------------------------------------------------- without failing opens

  /** A request that downloads has no metadata of its key on disk, an entry is served with its
      body, and no body that a crash has put in place has survived the restart. */
  predicate Tight(w: World, key: Key) {
    && (key in w.torn ==> key !in w.store.bodies)
    && (key in w.sessions && key in w.store.metas ==>
          w.sessions[key].Acquired? || (w.sessions[key].Serving? && key in w.store.bodies))
  }

  ghost predicate AllTight(w: World) {
    forall key :: Tight(w, key)
  }

  predicate OpensFine(e: Event) {
    e.Open? ==> !e.openFails
  }

  lemma SmallStepTight(w: World, e: Event, limits: Limits, key: Key)
    requires Small(w, e) && OpensFine(e) && Tight(w, key)
    ensures Tight(Step(w, e, limits).0, key)
  {
    SmallStepFiles(w, e, limits);
    if key != e.key {
      SmallStepOthers(w, e, limits, key);
    }
  }

  lemma LookupTight(w: World, key: Key, now: real, touchFails: bool, k: Key)
    requires key in w.sessions && Tight(w, k)
    ensures var r := Lookup(w.store, key, now, touchFails);
            Tight(Next(w.(store := r.0), key, if r.1.Some? then Serving(r.1.value) else Missed), k)
  {
  }

  lemma SettleTight(w: World, key: Key, now: real, limits: Limits)
    requires Tight(w, key)
    ensures Tight(w.(store := Settle(w.store, now, limits)), key)
  {
    PruneAt(w.store, now, limits, key);
  }

  lemma FinishTight(w: World, key: Key, received: Bytes, contentType: string, metadataFails: bool, now: real,
                    limits: Limits, k: Key)
    requires key in w.sessions && w.sessions[key] == Checked(received, contentType) && Tight(w, key) && Tight(w, k)
    ensures Tight(FinishCommit(w, key, received, contentType, metadataFails, now, limits), k)
  {
    if key in w.store.partials && !metadataFails {
      assert Tight(Committing(w, key, received, contentType), k);
      SettleTight(Committing(w, key, received, contentType), k, now, limits);
    }
  }

  lemma CrashTight(w: World, commit: Interrupted, goneBodies: set<Key>, goneMetas: set<Key>, now: real,
                   limits: Limits, key: Key)
    requires Tight(w, key)
    ensures Tight(Step(w, Crash(commit, goneBodies, goneMetas, now), limits).0, key)
  {
    var v := Lose(Interrupt(w, commit), goneBodies, goneMetas);
    InterruptTight(w, commit, key);
    if key in v.torn {
      PruneDropsBare(v.store, now, limits, key);
    }
  }

  lemma InterruptTight(w: World, commit: Interrupted, key: Key)
    requires Tight(w, key)
    ensures var v := Interrupt(w, commit); key in v.torn ==> key !in v.store.bodies || key !in v.store.metas
  {
  }

  lemma PruneDropsBare(s: Store, now: real, limits: Limits, key: Key)
    requires key !in s.bodies || key !in s.metas
    ensures key !in Prune(s, now, limits).bodies
  {
    PruneAt(s, now, limits, key);
  }

  lemma StepTight(w: World, e: Event, limits: Limits)
    requires AllTight(w) && OpensFine(e)
    ensures AllTight(Step(w, e, limits).0)
  {
    forall k
      ensures Tight(Step(w, e, limits).0, k)
    {
      assert Tight(w, k);
      match e
      case Crash(commit, goneBodies, goneMetas, now) => CrashTight(w, commit, goneBodies, goneMetas, now, limits, k);
      case Acquire(key) =>
      case LookUp(key, now, touchFails) =>
        if key in w.sessions && w.sessions[key].Acquired? {
          LookupTight(w, key, now, touchFails, k);
        }
      case Finish(key, metadataFails, now) =>
        if key in w.sessions && w.sessions[key].Checked? {
          assert Tight(w, key);
          FinishTight(w, key, w.sessions[key].received, w.sessions[key].contentType, metadataFails, now, limits, k);
        }
      case _ =>
        if e.key in w.sessions {
          SmallStepTight(w, e, limits, k);
        }
    }
  }

  lemma {:induction false} RunTight(w: World, events: seq<Event>, limits: Limits)
    requires AllTight(w) && forall e | e in events :: OpensFine(e)
    ensures AllTight(Run(w, events, limits))
    decreases |events|
  {
    if events != [] {
      StepTight(w, events[0], limits);
      RunTight(Step(w, events[0], limits).0, events[1..], limits);
    }
  }

  /** As long as no stored entry fails to open, every hit is the latest commit, body and content
      type, whatever else fails, crashes or is pruned. */
  lemma HitsAreLatest(events: seq<Event>, e: Event, limits: Limits)
    requires forall x | x in events :: OpensFine(x)
    requires Step(Run(EMPTY, events, limits), e, limits).1.Some?
    ensures
      var w := Run(EMPTY, events, limits);
      var hit := Step(w, e, limits).1.value;
      hit.key in w.latest && w.latest[hit.key] == Version(hit.body, hit.artifact.contentType)
  {
    RunTight(EMPTY, events, limits);
    HitsAreFaithful(events, e, limits);
    assert Tight(Run(EMPTY, events, limits), e.key);
  }

  // ---------------------------------------------------------------- entries are served

  lemma RunTwo(w: World, a: Event, b: Event, limits: Limits)
    ensures Run(w, [a, b], limits) == Step(Step(w, a, limits).0, b, limits).0
  {
    assert [a, b][1..] == [b] && [b][1..] == [];
    assert Run(w, [a, b], limits) == Run(Step(w, a, limits).0, [b], limits);
    assert Run(Step(w, a, limits).0, [b], limits) == Run(Step(Step(w, a, limits).0, b, limits).0, [], limits);
  }

  /** In every reachable state, the next undisturbed request for a stored entry is a hit with that
      body under the latest type, exactly when the body has the length of the latest commit, so
      always unless a crash has put another body in place. */
  lemma ServedAgain(w: World, key: Key, now: real, limits: Limits)
    requires Inv(w, limits) && key !in w.sessions && key in w.store.bodies
    ensures key in w.latest
    ensures
      var body, latest := w.store.bodies[key].content, w.latest[key];
      var v := Run(w, [Acquire(key), LookUp(key, now, false)], limits);
      && Step(v, Open(key, false), limits).1 ==
           (if |body| == |latest.body| then Some(Hit(key, body, Artifact(latest.contentType, |body|))) else None)
      && (key !in w.torn ==> body == latest.body)
  {
    assert Good(w, key);
    RunTwo(w, Acquire(key), LookUp(key, now, false), limits);
    var a := Step(w, Acquire(key), limits).0;
    assert a.store == w.store && a.sessions[key] == Acquired;
    var body, latest := w.store.bodies[key].content, w.latest[key];
    assert Stored(w.store, key) ==
           if |body| == |latest.body| then Some(Artifact(latest.contentType, |body|)) else None;
  }

  // ---------------------------------------------------------------- after a failing open

  lemma {:induction false} RunAppend(w: World, a: seq<Event>, b: seq<Event>, limits: Limits)
    ensures Run(w, a + b, limits) == Run(Run(w, a, limits), b, limits)
    decreases |a|
  {
    if a == [] {
      assert a + b == b;
    } else {
      RunAppend(Step(w, a[0], limits).0, a[1..], b, limits);
      assert (a + b)[0] == a[0] && (a + b)[1..] == a[1..] + b;
    }
  }

  /** A download up to the point where the commit can begin. */
  function Download(key: Key, body: Bytes, contentType: string): seq<Event> {
    [Fetch(key, 0.0), Receive(key, body, 0.0), Check(key, contentType)]
  }

  lemma RunThree(w: World, a: Event, b: Event, c: Event, limits: Limits)
    ensures Run(w, [a, b, c], limits) == Step(Step(Step(w, a, limits).0, b, limits).0, c, limits).0
  {
    assert [a, b, c][1..] == [b, c] && [b, c][1..] == [c] && [c][1..] == [];
    var v := Step(w, a, limits).0;
    assert Run(w, [a, b, c], limits) == Run(v, [b, c], limits);
    assert Run(v, [b, c], limits) == Run(Step(v, b, limits).0, [c], limits);
    assert Run(Step(v, b, limits).0, [c], limits) == Run(Step(Step(v, b, limits).0, c, limits).0, [], limits);
  }

  lemma Downloads(w: World, key: Key, body: Bytes, contentType: string, limits: Limits)
    requires key in w.sessions && w.sessions[key] == Missed
    ensures Run(w, Download(key, body, contentType), limits) ==
              w.(store := w.store.(partials := w.store.partials[key := Body(body, 0.0)]),
                 sessions := w.sessions[key := Checked(body, contentType)])
  {
    var a := Step(w, Fetch(key, 0.0), limits).0;
    var b := Step(a, Receive(key, body, 0.0), limits).0;
    assert [] + body == body;
    assert a.sessions[key] == Streaming([]) && a.store.partials[key] == Body([], 0.0);
    assert b.sessions == w.sessions[key := Streaming(body)]
           && b.store.partials == w.store.partials[key := Body(body, 0.0)];
    RunThree(w, Fetch(key, 0.0), Receive(key, body, 0.0), Check(key, contentType), limits);
  }

  /** The cache with one entry. */
  function One(key: Key, body: Bytes, meta: Metadata): Store {
    Store(map[key := Body(body, 0.0)], map[key := meta], map[], |body|)
  }

  lemma OneTotal(key: Key, body: Bytes)
    ensures Total(map[key := Body(body, 0.0)]) == |body|
  {
    TotalUpdate(map[], key, Body(body, 0.0));
  }

  /** Pruning leaves a fresh entry that fits alone. */
  lemma OnePruned(key: Key, body: Bytes, meta: Metadata, partials: map<Key, Body>, known: int, limits: Limits)
    requires |body| <= limits.maxBytes && limits.maxAge >= 0.0
    ensures Prune(One(key, body, meta).(partials := partials, known := known), 0.0, limits) == One(key, body, meta)
  {
    var s := One(key, body, meta).(partials := partials, known := known);
    assert Live(s, 0.0, limits) == s.bodies;
    OneTotal(key, body);
    PruneIdle(s, 0.0, limits);
  }

  predicate Room(body: Bytes, limits: Limits) {
    |body| <= limits.maxBytes && limits.maxAge >= 0.0
  }

  function Described(key: Key, body: Bytes, contentType: string): Metadata {
    Metadata(SCHEMA_VERSION, key, contentType, |body|)
  }

  /** A request that finds nothing, downloads and commits. */
  function FirstRequest(key: Key, body: Bytes, contentType: string): seq<Event> {
    [Acquire(key), LookUp(key, 0.0, false)] + Download(key, body, contentType) + [Finish(key, false, 0.0)]
  }

  /** A request that finds the entry, cannot open it, downloads another body, and dies between
      the two replacements of its commit. */
  function SecondRequest(key: Key, body: Bytes, contentType: string): seq<Event> {
    [Acquire(key), LookUp(key, 0.0, false), Open(key, true)] + Download(key, body, contentType)
    + [Crash(Between(key), {}, {}, 0.0)]
  }

  lemma RunOne(w: World, a: Event, limits: Limits)
    ensures Run(w, [a], limits) == Step(w, a, limits).0
  {
    assert Run(w, [a], limits) == Run(Step(w, a, limits).0, [a][1..], limits);
  }

  lemma MissesFirst(key: Key, limits: Limits)
    ensures Run(EMPTY, [Acquire(key), LookUp(key, 0.0, false)], limits) == EMPTY.(sessions := map[key := Missed])
  {
    RunTwo(EMPTY, Acquire(key), LookUp(key, 0.0, false), limits);
    var a := Step(EMPTY, Acquire(key), limits).0;
    assert a == EMPTY.(sessions := map[key := Acquired]);
    assert Lookup(EMPTY.store, key, 0.0, false) == (EMPTY.store, None);
  }

  lemma FirstCommits(key: Key, body: Bytes, contentType: string, limits: Limits)
    requires Room(body, limits)
    ensures Run(EMPTY, FirstRequest(key, body, contentType), limits) == Committed(key, body, contentType)
  {
    var prefix, download := [Acquire(key), LookUp(key, 0.0, false)], Download(key, body, contentType);
    MissesFirst(key, limits);
    var b := EMPTY.(sessions := map[key := Missed]);
    RunAppend(EMPTY, prefix, download, limits);
    Downloads(b, key, body, contentType, limits);
    var c := Run(b, download, limits);
    RunAppend(EMPTY, prefix + download, [Finish(key, false, 0.0)], limits);
    RunOne(c, Finish(key, false, 0.0), limits);
    FirstFinishes(c, key, body, contentType, limits);
  }

  /** The world after one commit to an empty cache. */
  function Committed(key: Key, body: Bytes, contentType: string): World {
    World(One(key, body, Described(key, body, contentType)), map[], map[key := Version(body, contentType)],
          {(key, body)}, map[])
  }

  lemma FirstFinishes(c: World, key: Key, body: Bytes, contentType: string, limits: Limits)
    requires Room(body, limits)
    requires c == World(Store(map[], map[], map[key := Body(body, 0.0)], 0), map[key := Checked(body, contentType)],
                        map[], {}, map[])
    ensures Step(c, Finish(key, false, 0.0), limits).0 == Committed(key, body, contentType)
  {
    assert Installed(c.store, key, contentType, |body|) == One(key, body, Described(key, body, contentType));
    assert c.sessions - {key} == map[] && c.torn - {key} == map[];
  }

  /** The entry is found, and cannot be opened. */
  lemma CannotOpen(w: World, key: Key, body: Bytes, contentType: string, limits: Limits)
    requires w == Committed(key, body, contentType)
    ensures Run(w, [Acquire(key), LookUp(key, 0.0, false), Open(key, true)], limits)
            == w.(sessions := map[key := Missed])
  {
    RunThree(w, Acquire(key), LookUp(key, 0.0, false), Open(key, true), limits);
    FindsOne(w, key, body, contentType, body, limits);
  }

  /** A lookup of the only entry, when its metadata describe the length of its body. */
  lemma FindsOne(w: World, key: Key, body: Bytes, contentType: string, prior: Bytes, limits: Limits)
    requires w.store == One(key, body, Described(key, prior, contentType)) && |prior| == |body| && w.sessions == map[]
    ensures Step(Step(w, Acquire(key), limits).0, LookUp(key, 0.0, false), limits).0 ==
              w.(sessions := map[key := Serving(Artifact(contentType, |body|))])
  {
    var a := Step(w, Acquire(key), limits).0;
    assert a == w.(sessions := map[key := Acquired]);
    assert Stored(a.store, key) == Some(Artifact(contentType, |body|));
    assert a.store.bodies[key := a.store.bodies[key].(mtime := 0.0)] == a.store.bodies;
  }

  /** The world after the second request: the new body under the metadata of the first. */
  function TornWorld(key: Key, x: Bytes, tx: string, y: Bytes): World {
    World(One(key, y, Described(key, x, tx)), map[], map[key := Version(x, tx)], {(key, x), (key, y)}, map[key := y])
  }

  /** The world before the second commit. */
  function Waiting(key: Key, x: Bytes, tx: string, y: Bytes, ty: string): World {
    Committed(key, x, tx).(store := One(key, x, Described(key, x, tx)).(partials := map[key := Body(y, 0.0)]),
                           sessions := map[key := Checked(y, ty)])
  }

  /** The files when the process dies. */
  function TornFiles(key: Key, x: Bytes, tx: string, y: Bytes): Store {
    One(key, y, Described(key, x, tx)).(known := |x|)
  }

  lemma BodyReplaced(key: Key, x: Bytes, tx: string, y: Bytes, ty: string)
    ensures Interrupt(Waiting(key, x, tx, y, ty), Between(key)) ==
              TornWorld(key, x, tx, y).(store := TornFiles(key, x, tx, y), sessions := map[key := Checked(y, ty)])
  {
    var c := Waiting(key, x, tx, y, ty);
    assert c.store.bodies[key := Body(y, 0.0)] == map[key := Body(y, 0.0)] && c.store.partials - {key} == map[];
    assert c.offered + {(key, y)} == {(key, x), (key, y)} && c.torn[key := y] == map[key := y];
  }

  lemma NothingLost(w: World)
    ensures Lose(w, {}, {}) == w
  {
    assert w.store.bodies - {} == w.store.bodies && w.store.metas - {} == w.store.metas;
  }

  lemma DiesBetween(key: Key, x: Bytes, tx: string, y: Bytes, ty: string, limits: Limits)
    requires |x| == |y| && Room(y, limits)
    ensures Step(Waiting(key, x, tx, y, ty), Crash(Between(key), {}, {}, 0.0), limits).0 == TornWorld(key, x, tx, y)
  {
    BodyReplaced(key, x, tx, y, ty);
    NothingLost(Interrupt(Waiting(key, x, tx, y, ty), Between(key)));
    OnePruned(key, y, Described(key, x, tx), map[], |x|, limits);
  }

  lemma DownloadsAgain(key: Key, x: Bytes, tx: string, y: Bytes, ty: string, limits: Limits)
    ensures Run(Committed(key, x, tx).(sessions := map[key := Missed]), Download(key, y, ty), limits)
            == Waiting(key, x, tx, y, ty)
  {
    var b := Committed(key, x, tx).(sessions := map[key := Missed]);
    Downloads(b, key, y, ty, limits);
    assert b.sessions[key := Checked(y, ty)] == map[key := Checked(y, ty)];
  }

  lemma SecondTears(key: Key, x: Bytes, tx: string, y: Bytes, ty: string, limits: Limits)
    requires |x| == |y| && Room(y, limits)
    ensures Run(Committed(key, x, tx), SecondRequest(key, y, ty), limits) == TornWorld(key, x, tx, y)
  {
    var w, prefix, crash := Committed(key, x, tx), [Acquire(key), LookUp(key, 0.0, false), Open(key, true)],
                            Crash(Between(key), {}, {}, 0.0);
    CannotOpen(w, key, x, tx, limits);
    RunAppend(w, prefix, Download(key, y, ty), limits);
    DownloadsAgain(key, x, tx, y, ty, limits);
    RunAppend(w, prefix + Download(key, y, ty), [crash], limits);
    RunOne(Waiting(key, x, tx, y, ty), crash, limits);
    DiesBetween(key, x, tx, y, ty, limits);
  }

  /** A run that serves something else than the latest commit, for any two bodies of one length:
      the second body is served under the content type of the first, although it was never
      committed. */
  lemma TornEntryServed(key: Key, x: Bytes, tx: string, y: Bytes, ty: string, limits: Limits)
    requires |x| == |y| && Room(y, limits)
    ensures
      var events := FirstRequest(key, x, tx) + SecondRequest(key, y, ty) + [Acquire(key), LookUp(key, 0.0, false)];
      var w := Run(EMPTY, events, limits);
      && w.latest == map[key := Version(x, tx)]
      && Step(w, Open(key, false), limits).1 == Some(Hit(key, y, Artifact(tx, |y|)))
  {
    var first, second, third := FirstRequest(key, x, tx), SecondRequest(key, y, ty),
        [Acquire(key), LookUp(key, 0.0, false)];
    FirstCommits(key, x, tx, limits);
    RunAppend(EMPTY, first, second, limits);
    SecondTears(key, x, tx, y, ty, limits);
    RunAppend(EMPTY, first + second, third, limits);
    var w := TornWorld(key, x, tx, y);
    RunTwo(w, Acquire(key), LookUp(key, 0.0, false), limits);
    FindsOne(w, key, y, tx, x, limits);
  }
}
