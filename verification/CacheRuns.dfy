/** Whole runs of the package proxy over its cache: any number of requests, interleaved between
    critical sections, with failing file operations, crashes and restarts.

    A request for a key holds that key's lock from `Acquire` until it is released; requests for
    different keys interleave freely, and any of them may prune. */
module CacheRuns {
  import opened Basics
  import opened CacheStore

  /** How far the request that holds a key's lock has come. */
  datatype Session =
    | Acquired
    | Serving(artifact: Artifact)
    | Missed
    | Streaming(received: Bytes)
    | Checked(received: Bytes, contentType: string)
    | Failed

  datatype Version = Version(body: Bytes, contentType: string)

  /** The cache and, for the specification, the history: the latest commit of each key, the
      complete bodies ever put in place, and the bodies that a crash has put in place after the
      latest commit of their key. */
  datatype World = World(
    store: Store, sessions: map<Key, Session>,
    latest: map<Key, Version>, offered: set<(Key, Bytes)>, torn: map<Key, Bytes>)

  /** Where a crash interrupts a commit: nowhere, between the two replacements, or after them. */
  datatype Interrupted = Nothing | Between(key: Key) | Behind(key: Key)

  /** A crash may also interrupt a lookup or a prune in the middle of its removals: some of the
      files are gone then. */
  datatype Event =
    | Acquire(key: Key)
    | LookUp(key: Key, now: real, touchFails: bool)
    | Open(key: Key, openFails: bool)
    | Fetch(key: Key, now: real)
    | Receive(key: Key, chunk: Bytes, now: real)
    | Abort(key: Key)
    | Check(key: Key, contentType: string)
    | Finish(key: Key, metadataFails: bool, now: real)
    | Discard(key: Key)
    | Release(key: Key)
    | Crash(commit: Interrupted, goneBodies: set<Key>, goneMetas: set<Key>, now: real)

  /** What the client of a cache hit receives. */
  datatype Hit = Hit(key: Key, body: Bytes, artifact: Artifact)

  const EMPTY := World(Store(map[], map[], map[], 0), map[], map[], {}, map[])

  function Write(s: Store, key: Key, chunk: Bytes, now: real): Store {
    if key in s.partials then s.(partials := s.partials[key := Body(s.partials[key].content + chunk, now)]) else s
  }

  /** One critical section, or one step outside them.  Events that the request's progress does
      not allow change nothing, so every sequence of events is a run. */
  ghost function Step(w: World, e: Event, limits: Limits): (World, Option<Hit>) {
    match e
    case Crash(commit, goneBodies, goneMetas, now) =>
      (Restart(Lose(Interrupt(w, commit), goneBodies, goneMetas), now, limits), None)
    case Acquire(key) =>
      (if key in w.sessions then w else w.(sessions := w.sessions[key := Acquired]), None)
    case _ =>
      if e.key !in w.sessions then (w, None) else Progress(w, e, w.sessions[e.key], limits)
  }

  ghost function Progress(w: World, e: Event, session: Session, limits: Limits): (World, Option<Hit>)
    requires !e.Crash? && !e.Acquire?
  {
    var key := e.key;
    match (session, e)
    case (Acquired, LookUp(_, now, touchFails)) =>
      var r := Lookup(w.store, key, now, touchFails);
      (Next(w.(store := r.0), key, if r.1.Some? then Serving(r.1.value) else Missed), None)
    case (Serving(artifact), Open(_, openFails)) =>
      if key in w.store.bodies && !openFails
      then (w.(sessions := w.sessions - {key}), Some(Hit(key, w.store.bodies[key].content, artifact)))
      else (Next(w, key, Missed), None)
    case (Missed, Fetch(_, now)) =>
      (Next(w.(store := w.store.(partials := w.store.partials[key := Body([], now)])), key, Streaming([])), None)
    case (Streaming(received), Receive(_, chunk, now)) =>
      (Next(w.(store := Write(w.store, key, chunk, now)), key, Streaming(received + chunk)), None)
    case (Streaming(received), Check(_, contentType)) =>
      var complete := key in w.store.partials && |w.store.partials[key].content| == |received|;
      (Next(w, key, if complete then Checked(received, contentType) else Failed), None)
    case (Checked(received, contentType), Finish(_, metadataFails, now)) =>
      (FinishCommit(w, key, received, contentType, metadataFails, now, limits), None)
    case (Streaming(_), Abort(_)) => (Next(w, key, Failed), None)
    case (Failed, Discard(_)) =>
      (w.(store := w.store.(partials := w.store.partials - {key}), sessions := w.sessions - {key}), None)
    case (Acquired, Release(_)) => (w.(sessions := w.sessions - {key}), None)
    case (Missed, Release(_)) => (w.(sessions := w.sessions - {key}), None)
    case _ => (w, None)
  }

  function Next(w: World, key: Key, session: Session): World {
    w.(sessions := w.sessions[key := session])
  }

  ghost function FinishCommit(w: World, key: Key, received: Bytes, contentType: string, metadataFails: bool,
                              now: real, limits: Limits): World
  {
    var r := Commit(w.store, key, contentType, |received|, metadataFails, now, limits);
    if r.1 == Committed then
      World(r.0, w.sessions - {key}, w.latest[key := Version(received, contentType)],
            w.offered + {(key, received)}, w.torn - {key})
    else
      Next(w.(store := r.0), key, Failed)
  }

  /** Both files of a commit are in place, and its request is over. */
  function Committing(w: World, key: Key, received: Bytes, contentType: string): World
    requires key in w.store.partials
  {
    World(Installed(w.store, key, contentType, |received|), w.sessions - {key},
          w.latest[key := Version(received, contentType)], w.offered + {(key, received)}, w.torn - {key})
  }

  /** The process dies inside a commit. */
  function Interrupt(w: World, commit: Interrupted): World {
    if commit.Nothing? || commit.key !in w.sessions || !w.sessions[commit.key].Checked?
       || commit.key !in w.store.partials
    then w
    else
      var key, received, contentType := commit.key, w.sessions[commit.key].received, w.sessions[commit.key].contentType;
      if commit.Behind? then Committing(w, key, received, contentType)
      else
        var s := w.store.(bodies := w.store.bodies[key := w.store.partials[key]], partials := w.store.partials - {key});
        w.(store := s, offered := w.offered + {(key, received)}, torn := w.torn[key := received])
  }

  function Lose(w: World, goneBodies: set<Key>, goneMetas: set<Key>): World {
    w.(store := w.store.(bodies := w.store.bodies - goneBodies, metas := w.store.metas - goneMetas))
  }

  /** A new process prunes what it finds. */
  ghost function Restart(w: World, now: real, limits: Limits): World {
    w.(store := Prune(w.store, now, limits), sessions := map[])
  }

  ghost function Run(w: World, events: seq<Event>, limits: Limits): World
    decreases |events|
  {
    if events == [] then w else Run(Step(w, events[0], limits).0, events[1..], limits)
  }

  // ---------------------------------------------------------------- the invariant

  /** The counter is exact and within the bound. */
  ghost predicate Counted(s: Store, limits: Limits) {
    s.known == Total(s.bodies) <= limits.maxBytes
  }

  /** Metadata always describe the latest commit of their key; a stored body is a complete body
      put in place for it, the latest commit's unless a crash has put it in place. */
  predicate Faithful(w: World, key: Key) {
    && (key in w.store.bodies ==>
          var body := w.store.bodies[key].content;
          && (key, body) in w.offered
          && if key in w.torn then body == w.torn[key] else key in w.latest && body == w.latest[key].body)
    && (key in w.store.metas ==>
          && key in w.latest
          && w.store.metas[key] == Metadata(SCHEMA_VERSION, key, w.latest[key].contentType, |w.latest[key].body|))
  }

  /** A partial download still holds what its request has received, and a served entry, while it
      exists, is what the lookup saw. */
  predicate InStep(w: World, key: Key) {
    key in w.sessions ==>
      match w.sessions[key]
      case Streaming(received) => key in w.store.partials ==> w.store.partials[key].content == received
      case Checked(received, _) => key in w.store.partials ==> w.store.partials[key].content == received
      case Serving(artifact) => key in w.store.bodies ==> Stored(w.store, key) == Some(artifact)
      case _ => true
  }

  predicate Good(w: World, key: Key) {
    Faithful(w, key) && InStep(w, key) && (key in w.store.bodies ==> key in w.store.metas)
  }

  ghost predicate Inv(w: World, limits: Limits) {
    Counted(w.store, limits) && forall key :: Good(w, key)
  }

  // ---------------------------------------------------------------- the counter

  /** The clamp at zero never takes effect. */
  lemma NeverClamped(s: Store, key: Key, limits: Limits)
    requires Counted(s, limits)
    ensures Clamped(s.known, Size(s.bodies, key)) == s.known - Size(s.bodies, key) == Total(s.bodies - {key})
  {
    TotalWithout(s.bodies, key);
  }

  lemma LookupCounted(s: Store, key: Key, now: real, touchFails: bool, limits: Limits)
    requires Counted(s, limits)
    ensures Counted(Lookup(s, key, now, touchFails).0, limits)
  {
    NeverClamped(s, key, limits);
    if key in s.bodies {
      TotalUpdate(s.bodies, key, s.bodies[key].(mtime := now));
    }
  }

  lemma CommitCounted(s: Store, key: Key, contentType: string, contentLength: nat, metadataFails: bool,
                      now: real, limits: Limits)
    requires Counted(s, limits) && (key in s.partials ==> |s.partials[key].content| == contentLength)
    ensures Counted(Commit(s, key, contentType, contentLength, metadataFails, now, limits).0, limits)
  {
    if key in s.partials {
      NeverClamped(s, key, limits);
      InstalledCounted(s, key, contentType, contentLength, limits);
      SettleCounted(Installed(s, key, contentType, contentLength), now, limits);
    }
  }

  lemma InstalledCounted(s: Store, key: Key, contentType: string, contentLength: nat, limits: Limits)
    requires Counted(s, limits) && key in s.partials && |s.partials[key].content| == contentLength
    ensures var t := Installed(s, key, contentType, contentLength); t.known == Total(t.bodies)
  {
    TotalUpdate(s.bodies, key, s.partials[key]);
  }

  lemma SettleCounted(s: Store, now: real, limits: Limits)
    requires s.known == Total(s.bodies)
    ensures Counted(Settle(s, now, limits), limits)
  {
    PruneResult(s, now, limits);
  }

  // ---------------------------------------------------------------- one key at a time

  /** Of this key, files can only have disappeared, a body never without its metadata. */
  predicate Loses(w: World, v: World, key: Key) {
    var s, t := w.store, v.store;
    && (key in t.bodies ==> key in s.bodies && t.bodies[key].content == s.bodies[key].content
                            && (key in s.metas ==> key in t.metas))
    && (key in t.metas ==> key in s.metas && t.metas[key] == s.metas[key])
    && (key in t.partials ==> key in s.partials && t.partials[key] == s.partials[key])
    && (key in v.sessions ==> key in w.sessions && v.sessions[key] == w.sessions[key])
    && SameHistory(w, v, key)
  }

  predicate SameHistory(w: World, v: World, key: Key) {
    && (key in v.torn <==> key in w.torn) && (key in w.torn ==> v.torn[key] == w.torn[key])
    && (key in v.latest <==> key in w.latest) && (key in w.latest ==> v.latest[key] == w.latest[key])
    && w.offered <= v.offered
  }

  lemma LosesKeeps(w: World, v: World, key: Key)
    requires Good(w, key) && Loses(w, v, key)
    ensures Good(v, key)
  {
  }

  lemma LookupKeeps(w: World, key: Key, now: real, touchFails: bool, limits: Limits)
    requires Inv(w, limits) && key in w.sessions
    ensures var r := Lookup(w.store, key, now, touchFails);
            Inv(Next(w.(store := r.0), key, if r.1.Some? then Serving(r.1.value) else Missed), limits)
  {
    var r := Lookup(w.store, key, now, touchFails);
    var v := Next(w.(store := r.0), key, if r.1.Some? then Serving(r.1.value) else Missed);
    LookupCounted(w.store, key, now, touchFails, limits);
    forall k
      ensures Good(v, k)
    {
      assert Good(w, k);
      if k != key {
        LosesKeeps(w, v, k);
      }
    }
  }

  lemma SettleKeeps(w: World, key: Key, now: real, limits: Limits)
    requires Good(w, key)
    ensures Good(w.(store := Settle(w.store, now, limits)), key)
  {
    PruneAt(w.store, now, limits, key);
    LosesKeeps(w, w.(store := Settle(w.store, now, limits)), key);
  }

  lemma FinishKeeps(w: World, key: Key, received: Bytes, contentType: string, metadataFails: bool, now: real,
                    limits: Limits)
    requires Inv(w, limits) && key in w.sessions && w.sessions[key] == Checked(received, contentType)
    ensures Inv(FinishCommit(w, key, received, contentType, metadataFails, now, limits), limits)
  {
    var v := FinishCommit(w, key, received, contentType, metadataFails, now, limits);
    assert Good(w, key);
    CommitCounted(w.store, key, contentType, |received|, metadataFails, now, limits);
    forall k
      ensures Good(v, k)
    {
      assert Good(w, k);
      if key in w.store.partials && !metadataFails {
        InstalledKeeps(w, key, received, contentType, k);
        SettleKeeps(Committing(w, key, received, contentType), k, now, limits);
      } else if k != key {
        LosesKeeps(w, v, k);
      }
    }
  }

  lemma InstalledKeeps(w: World, key: Key, received: Bytes, contentType: string, k: Key)
    requires Good(w, k) && key in w.store.partials && w.store.partials[key].content == received
    ensures Good(Committing(w, key, received, contentType), k)
  {
    if k != key {
      LosesKeeps(w, Committing(w, key, received, contentType), k);
    }
  }

  // ---------------------------------------------------------------- crashes

  lemma InterruptKeeps(w: World, commit: Interrupted, key: Key)
    requires Good(w, key) && (!commit.Nothing? ==> Good(w, commit.key))
    ensures Faithful(Interrupt(w, commit), key)
  {
  }

  lemma LoseKeeps(w: World, goneBodies: set<Key>, goneMetas: set<Key>, key: Key)
    requires Faithful(w, key)
    ensures Faithful(Lose(w, goneBodies, goneMetas), key)
  {
  }

  lemma RestartKeeps(w: World, now: real, limits: Limits)
    requires forall key :: Faithful(w, key)
    ensures Inv(Restart(w, now, limits), limits)
  {
    PruneResult(w.store, now, limits);
    var v := Restart(w, now, limits);
    forall key
      ensures Good(v, key)
    {
      PruneAt(w.store, now, limits, key);
      assert Faithful(w, key);
    }
  }

  lemma CrashKeeps(w: World, commit: Interrupted, goneBodies: set<Key>, goneMetas: set<Key>, now: real, limits: Limits)
    requires Inv(w, limits)
    ensures Inv(Step(w, Crash(commit, goneBodies, goneMetas, now), limits).0, limits)
  {
    var v := Interrupt(w, commit);
    forall key
      ensures Faithful(Lose(v, goneBodies, goneMetas), key)
    {
      assert Good(w, key) && (!commit.Nothing? ==> Good(w, commit.key));
      InterruptKeeps(w, commit, key);
      LoseKeeps(v, goneBodies, goneMetas, key);
    }
    RestartKeeps(Lose(v, goneBodies, goneMetas), now, limits);
  }

  // ---------------------------------------------------------------- steps

  predicate Small(w: World, e: Event) {
    !e.Crash? && !e.Acquire? && !e.LookUp? && !e.Finish? && e.key in w.sessions
  }

  lemma SmallStepFiles(w: World, e: Event, limits: Limits)
    requires Small(w, e)
    ensures var v := Step(w, e, limits).0;
            && v.store.bodies == w.store.bodies && v.store.metas == w.store.metas && v.store.known == w.store.known
            && v.latest == w.latest && v.offered == w.offered && v.torn == w.torn
  {
  }

  lemma SmallStepOthers(w: World, e: Event, limits: Limits, key: Key)
    requires Small(w, e) && key != e.key
    ensures var v := Step(w, e, limits).0;
            && (key in v.sessions ==> key in w.sessions && v.sessions[key] == w.sessions[key])
            && (key in v.store.partials ==> key in w.store.partials && v.store.partials[key] == w.store.partials[key])
  {
  }

  lemma SmallStepLoses(w: World, e: Event, limits: Limits, key: Key)
    requires Small(w, e) && key != e.key
    ensures Loses(w, Step(w, e, limits).0, key)
  {
    SmallStepFiles(w, e, limits);
    SmallStepOthers(w, e, limits, key);
  }

  lemma SmallStepKeepsOwn(w: World, e: Event, limits: Limits)
    requires Small(w, e) && Good(w, e.key)
    ensures Good(Step(w, e, limits).0, e.key)
  {
  }

  /** The steps that touch no stored entry. */
  lemma SmallStepsKeep(w: World, e: Event, limits: Limits)
    requires Inv(w, limits) && Small(w, e)
    ensures Inv(Step(w, e, limits).0, limits)
  {
    var v := Step(w, e, limits).0;
    SmallStepFiles(w, e, limits);
    forall k
      ensures Good(v, k)
    {
      assert Good(w, k);
      if k != e.key {
        SmallStepLoses(w, e, limits, k);
        LosesKeeps(w, v, k);
      } else {
        SmallStepKeepsOwn(w, e, limits);
      }
    }
  }

  /** Every step of every request, and every crash, keeps the invariant. */
  lemma StepKeeps(w: World, e: Event, limits: Limits)
    requires Inv(w, limits)
    ensures Inv(Step(w, e, limits).0, limits)
  {
    match e
    case Crash(commit, goneBodies, goneMetas, now) => CrashKeeps(w, commit, goneBodies, goneMetas, now, limits);
    case Acquire(key) =>
      forall k
        ensures Good(Step(w, e, limits).0, k)
      {
        assert Good(w, k);
      }
    case LookUp(key, now, touchFails) =>
      if key in w.sessions && w.sessions[key].Acquired? {
        LookupKeeps(w, key, now, touchFails, limits);
      }
    case Finish(key, metadataFails, now) =>
      if key in w.sessions && w.sessions[key].Checked? {
        FinishKeeps(w, key, w.sessions[key].received, w.sessions[key].contentType, metadataFails, now, limits);
      }
    case _ =>
      if e.key in w.sessions {
        SmallStepsKeep(w, e, limits);
      }
  }

  // ---------------------------------------------------------------- main results

  /** In every state a run reaches while the state lock is free, the counter equals the stored
      bytes and they fit the bound. */
  lemma {:induction false} RunKeeps(w: World, events: seq<Event>, limits: Limits)
    requires Inv(w, limits)
    ensures Inv(Run(w, events, limits), limits)
    decreases |events|
  {
    if events != [] {
      StepKeeps(w, events[0], limits);
      RunKeeps(Step(w, events[0], limits).0, events[1..], limits);
    }
  }

  lemma StartsEmpty(limits: Limits)
    ensures Inv(EMPTY, limits)
  {
  }

  /** The cache refines a map from key to latest committed body.  After any run, a hit delivers
      one complete body that was put in place for that key, with its length, under the content
      type of the latest commit; and it is the latest commit exactly when no crash has put
      another body in place since. */
  lemma HitsAreFaithful(events: seq<Event>, e: Event, limits: Limits)
    requires Step(Run(EMPTY, events, limits), e, limits).1.Some?
    ensures
      var w := Run(EMPTY, events, limits);
      var hit := Step(w, e, limits).1.value;
      && (hit.key, hit.body) in w.offered && hit.artifact.contentLength == |hit.body|
      && hit.key in w.latest && hit.artifact.contentType == w.latest[hit.key].contentType
      && (hit.key in w.torn ==> hit.body == w.torn[hit.key])
      && (w.latest[hit.key] == Version(hit.body, hit.artifact.contentType)
          <==> (hit.key in w.torn ==> w.torn[hit.key] == w.latest[hit.key].body))
  {
    StartsEmpty(limits);
    RunKeeps(EMPTY, events, limits);
    var w := Run(EMPTY, events, limits);
    assert Good(w, e.key);
  }

  /** A commit that overfills the cache prunes away every partial download. */
  lemma FinishPrunes(w: World, key: Key, now: real, limits: Limits)
    requires key in w.sessions && w.sessions[key].Checked? && key in w.store.partials
    requires w.store.known + |w.sessions[key].received| - Size(w.store.bodies, key) > limits.maxBytes
    ensures var v := Step(w, Finish(key, false, now), limits).0;
            v.store.partials == map[] && v.sessions == w.sessions - {key}
  {
    var received, contentType := w.sessions[key].received, w.sessions[key].contentType;
    CommitPrunes(w.store, key, contentType, |received|, now, limits);
    assert Step(w, Finish(key, false, now), limits).0
           == FinishCommit(w, key, received, contentType, false, now, limits);
  }

  lemma CommitPrunes(s: Store, key: Key, contentType: string, length: nat, now: real, limits: Limits)
    requires key in s.partials && s.known + length - Size(s.bodies, key) > limits.maxBytes
    ensures var r := Commit(s, key, contentType, length, false, now, limits);
            r.1 == Committed && r.0.partials == map[]
  {
    PruneResult(Installed(s, key, contentType, length), now, limits);
  }

  lemma MissingPartialFails(v: World, key: Key, metadataFails: bool, now: real, limits: Limits)
    requires key in v.sessions && v.sessions[key].Checked? && v.store.partials == map[]
    ensures
      var u := Step(v, Finish(key, metadataFails, now), limits).0;
      u == Next(v, key, Failed) && Step(u, Discard(key), limits).0 == v.(sessions := v.sessions - {key})
  {
    var u := Next(v, key, Failed);
    assert u.store.partials - {key} == u.store.partials && u.sessions - {key} == v.sessions - {key};
  }

  /** A commit whose partial download another key's prune deletes fails and changes no file. */
  lemma PrunedPartialFails(w: World, key: Key, other: Key, metadataFails: bool, now: real, later: real, limits: Limits)
    requires key != other && key in w.sessions && w.sessions[key].Checked?
    requires other in w.sessions && w.sessions[other].Checked? && other in w.store.partials
    requires w.store.known + |w.sessions[other].received| - Size(w.store.bodies, other) > limits.maxBytes
    ensures
      var v := Step(w, Finish(other, false, now), limits).0;
      var u := Step(v, Finish(key, metadataFails, later), limits).0;
      && u == Next(v, key, Failed)
      && Step(u, Discard(key), limits).0 == v.(sessions := v.sessions - {key})
  {
    FinishPrunes(w, other, now, limits);
    MissingPartialFails(Step(w, Finish(other, false, now), limits).0, key, metadataFails, later, limits);
  }
}
