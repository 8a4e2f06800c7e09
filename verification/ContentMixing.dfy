/** When a read by name, which takes its row number and its content in two steps, is
    given what the name did not have. */
module ContentMixing {
  import opened Basics
  import opened ContentCache

  // ----- finished reads

  /** The read was given something other than its name's content when it was resolved. */
  ghost predicate Mixed(s: State, r: nat)
    requires Inv(s) && Finished(s, r)
  {
    var pc := s.readers[r].pc;
    pc.data != s.hist[pc.resolvedAt].blobs[pc.rid]
  }

  /** The row has other content at one moment than at another. */
  predicate RowDiffers(s: State, rid: Rid, t: nat, u: nat)
    requires t < |s.hist| && u < |s.hist|
  {
    rid in s.hist[t].blobs && rid in s.hist[u].blobs && s.hist[t].blobs[rid] != s.hist[u].blobs[rid]
  }

  /**
   * In every reachable state, a finished read is mixed exactly when its row has other
   * content at the moment its content is from than at the moment it was resolved, two
   * moments that no write returned before the read began is later than.
   */
  lemma {:induction false} MixedExactly(s: State, r: nat)
    requires Inv(s) && Finished(s, r)
    ensures var pc := s.readers[r].pc;
            && s.floor[s.readers[r].began] <= pc.at < |s.hist|
            && s.floor[s.readers[r].began] <= pc.resolvedAt < |s.hist|
            && (Mixed(s, r) <==> RowDiffers(s, pc.rid, pc.at, pc.resolvedAt))
  {
    assert ReaderOk(s, s.readers[r]);
  }

  /** From a moment on, no row number is given to other content. */
  ghost predicate RowsKept(s: State, from: nat) {
    forall t, u, rid {:trigger RowDiffers(s, rid, t, u)} ::
      from <= t < |s.hist| && from <= u < |s.hist| ==> !RowDiffers(s, rid, t, u)
  }

  /** Some run from the store leads to the state. */
  ghost predicate Reachable(store: Store, s: State) {
    exists acts {:trigger Taken(acts)} :: Taken(acts) && Runs(Init(store), acts) && After(Init(store), acts) == s
  }

  /** Names a sequence of actions. */
  ghost predicate Taken(acts: seq<Action>) {
    true
  }

  lemma {:induction false} ReachableInv(store: Store, s: State)
    requires Reachable(store, s)
    ensures Inv(s)
  {
    var acts :| Taken(acts) && Runs(Init(store), acts) && After(Init(store), acts) == s;
    InitInv(store);
    RunInv(Init(store), acts);
  }

  lemma {:induction false} StepReachable(store: Store, s: State, a: Action)
    requires Reachable(store, s) && |s.hist| > 0 && |s.floor| > 0 && Enabled(s, a)
    ensures Reachable(store, Apply(s, a))
  {
    var acts :| Taken(acts) && Runs(Init(store), acts) && After(Init(store), acts) == s;
    Extend(Init(store), acts, a);
    assert Taken(acts + [a]);
  }

  /** Where the writes landed since a read began give no row other content, it is exact, cached or not. */
  lemma {:induction false} KeptRowsReadExact(store: Store, s: State, r: nat)
    requires Reachable(store, s) && Finished(s, r) && Inv(s)
    requires RowsKept(s, s.floor[s.readers[r].began])
    ensures !Mixed(s, r)
  {
    MixedExactly(s, r);
  }

  // ----- a read left alone

  /** There is a store and a count, and the attached cache is one there has been. */
  predicate Sane(s: State) {
    |s.hist| > 0 && |s.floor| > 0 && (s.current.Some? ==> s.current.value < |s.caches|)
  }

  /** The attached cache counts every finished write. */
  predicate Live(s: State) {
    s.current.Some? && s.current.value < |s.caches| && s.caches[s.current.value].writes == s.writes
  }

  function WithReader(s: State, r: nat, name: Name, pc: Pc): State {
    s.(readers := s.readers[r := Reader(name, s.writes, pc)])
  }

  /** The state in which a read begun now has chosen its cache. */
  function Chose(s: State, r: nat, name: Name): State {
    if s.current == None then WithReader(s, r, name, Ready(None))
    else if Live(s) then WithReader(s, r, name, Ready(s.current))
    else
      WithReader(s.(caches := s.caches + [Cache(s.writes, map[])], current := Some(|s.caches|)), r, name,
        Ready(Some(|s.caches|)))
  }

  lemma {:induction false} BeginAlone(store: Store, s: State, r: nat, name: Name)
    requires Reachable(store, s) && Sane(s) && r !in s.readers
    ensures Reachable(store, WithReader(s, r, name, Begun))
  {
    StepReachable(store, s, Begin(r, name));
  }

  lemma {:induction false} LoadAlone(store: Store, s: State, r: nat, name: Name)
    requires Reachable(store, WithReader(s, r, name, Begun)) && Sane(s)
    ensures s.current == None ==> Reachable(store, WithReader(s, r, name, Ready(None)))
    ensures s.current.Some? ==> Reachable(store, WithReader(s, r, name, Loaded(s.current.value)))
  {
    var t := WithReader(s, r, name, Begun);
    StepReachable(store, t, LoadPointer(r));
    assert Apply(t, LoadPointer(r)) ==
             WithReader(s, r, name, if s.current.Some? then Loaded(s.current.value) else Ready(None));
  }

  lemma {:induction false} CountAlone(store: Store, s: State, r: nat, name: Name, cc: nat)
    requires Reachable(store, WithReader(s, r, name, Loaded(cc))) && Sane(s)
    ensures Reachable(store, WithReader(s, r, name, Counted(cc, s.writes)))
  {
    var t := WithReader(s, r, name, Loaded(cc));
    StepReachable(store, t, LoadCount(r));
    assert Apply(t, LoadCount(r)) == WithReader(s, r, name, Counted(cc, s.writes));
  }

  lemma {:induction false} PickAlone(store: Store, s: State, r: nat, name: Name, cc: nat)
    requires Reachable(store, WithReader(s, r, name, Counted(cc, s.writes))) && Sane(s) && s.current == Some(cc)
    ensures Reachable(store, Chose(s, r, name))
  {
    var t := WithReader(s, r, name, Counted(cc, s.writes));
    PickIsChoice(s, r, name, cc);
    StepReachable(store, t, Choose(r));
  }

  lemma {:induction false} PickIsChoice(s: State, r: nat, name: Name, cc: nat)
    requires Sane(s) && s.current == Some(cc)
    ensures ContentCache.Chosen(WithReader(s, r, name, Counted(cc, s.writes)), r) == Chose(s, r, name)
  {
  }

  lemma {:induction false} ChooseAlone(store: Store, s: State, r: nat, name: Name)
    requires Reachable(store, s) && Sane(s) && r !in s.readers
    ensures Reachable(store, Chose(s, r, name))
  {
    BeginAlone(store, s, r, name);
    LoadAlone(store, s, r, name);
    if s.current.Some? {
      CountAlone(store, s, r, name, s.current.value);
      PickAlone(store, s, r, name, s.current.value);
    }
  }

  /** The content a read begun now and left alone is given. */
  function Served(s: State, rid: Rid): Bytes
    requires |s.hist| > 0 && rid in s.hist[Now(s)].blobs
  {
    if Live(s) && rid in s.caches[s.current.value].items then s.caches[s.current.value].items[rid].data
    else s.hist[Now(s)].blobs[rid]
  }

  /** The state once reader r, ready with a cache, has taken the row's content: from the
      cache, or from the store, leaving it in the cache. */
  function Took(t: State, r: nat, cache: Option<nat>, rid: Rid): State
    requires At(t, r) && |t.hist| > 0 && rid in t.hist[Now(t)].blobs && (cache.Some? ==> cache.value < |t.caches|)
  {
    if cache.Some? && rid in t.caches[cache.value].items then
      var e := t.caches[cache.value].items[rid];
      SetPc(t, r, Done(rid, Now(t), e.data, e.at))
    else
      var data := t.hist[Now(t)].blobs[rid];
      var kept := if cache == None then t else
        t.(caches := t.caches[cache.value :=
          t.caches[cache.value].(items := t.caches[cache.value].items[rid := Entry(data, Now(t))])]);
      SetPc(kept, r, Done(rid, Now(t), data, Now(t)))
  }

  lemma {:induction false} ResolveAlone(store: Store, t: State, r: nat, cache: Option<nat>)
    requires Reachable(store, t) && Sane(t) && r in t.readers && t.readers[r].pc == Ready(cache)
    requires Available(t.hist[Now(t)], t.readers[r].name)
    ensures Reachable(store, SetPc(t, r, Resolved(cache, t.hist[Now(t)].names[t.readers[r].name], Now(t))))
  {
    StepReachable(store, t, Resolve(r));
  }

  lemma {:induction false} HitAlone(store: Store, t: State, r: nat, cache: nat, rid: Rid)
    requires r in t.readers && |t.hist| > 0 && |t.floor| > 0
    requires Reachable(store, SetPc(t, r, Resolved(Some(cache), rid, Now(t))))
    requires cache < |t.caches| && rid in t.caches[cache].items
    ensures var e := t.caches[cache].items[rid]; Reachable(store, SetPc(t, r, Done(rid, Now(t), e.data, e.at)))
  {
    var u := SetPc(t, r, Resolved(Some(cache), rid, Now(t)));
    StepReachable(store, u, Hit(r));
    var e := t.caches[cache].items[rid];
    assert Apply(u, Hit(r)) == SetPc(t, r, Done(rid, Now(t), e.data, e.at));
  }

  lemma {:induction false} FetchAlone(store: Store, t: State, r: nat, cache: Option<nat>, rid: Rid)
    requires r in t.readers && |t.hist| > 0 && |t.floor| > 0 && rid in t.hist[Now(t)].blobs
    requires Reachable(store, SetPc(t, r, Resolved(cache, rid, Now(t))))
    requires cache.Some? ==> cache.value < |t.caches| && rid !in t.caches[cache.value].items
    ensures Reachable(store, SetPc(t, r, Fetched(cache, rid, Now(t), t.hist[Now(t)].blobs[rid], Now(t))))
  {
    var u := SetPc(t, r, Resolved(cache, rid, Now(t)));
    StepReachable(store, u, Fetch(r));
    assert Apply(u, Fetch(r)) == SetPc(t, r, Fetched(cache, rid, Now(t), t.hist[Now(t)].blobs[rid], Now(t)));
  }

  lemma {:induction false} KeepAlone(store: Store, t: State, r: nat, cache: Option<nat>, rid: Rid)
    requires r in t.readers && |t.hist| > 0 && |t.floor| > 0 && rid in t.hist[Now(t)].blobs
    requires Reachable(store, SetPc(t, r, Fetched(cache, rid, Now(t), t.hist[Now(t)].blobs[rid], Now(t))))
    requires cache.Some? ==> cache.value < |t.caches| && rid !in t.caches[cache.value].items
    ensures Reachable(store, Took(t, r, cache, rid))
  {
    var u := SetPc(t, r, Fetched(cache, rid, Now(t), t.hist[Now(t)].blobs[rid], Now(t)));
    StepReachable(store, u, Keep(r));
    assert Apply(u, Keep(r)) == Took(t, r, cache, rid);
  }

  /** The read resolves and takes its content. */
  lemma {:induction false} TakeAlone(store: Store, t: State, r: nat, cache: Option<nat>)
    requires Reachable(store, t) && Sane(t) && r in t.readers && t.readers[r].pc == Ready(cache)
    requires Available(t.hist[Now(t)], t.readers[r].name) && (cache.Some? ==> cache.value < |t.caches|)
    ensures Reachable(store, Took(t, r, cache, t.hist[Now(t)].names[t.readers[r].name]))
  {
    var rid := t.hist[Now(t)].names[t.readers[r].name];
    ResolveAlone(store, t, r, cache);
    if cache.Some? && rid in t.caches[cache.value].items {
      HitAlone(store, t, r, cache.value, rid);
    } else {
      FetchAlone(store, t, r, cache, rid);
      KeepAlone(store, t, r, cache, rid);
    }
  }

  /** What the live cache holds for the name's row is not what the store has. */
  ghost predicate Stale(s: State, name: Name)
    requires |s.hist| > 0
  {
    Available(s.hist[Now(s)], name)
      && Served(s, s.hist[Now(s)].names[name]) != s.hist[Now(s)].blobs[s.hist[Now(s)].names[name]]
  }

  /** The state in which a read of the name, begun now and left alone, has finished. */
  ghost function ReadDone(s: State, r: nat, name: Name): State
    requires Sane(s) && Available(s.hist[Now(s)], name)
  {
    var t := Chose(s, r, name);
    Took(t, r, t.readers[r].pc.cache, s.hist[Now(s)].names[name])
  }

  lemma {:induction false} ReadAlone(store: Store, s: State, r: nat, name: Name)
    requires Reachable(store, s) && Sane(s) && r !in s.readers && Available(s.hist[Now(s)], name)
    ensures Reachable(store, ReadDone(s, r, name))
  {
    ChooseAlone(store, s, r, name);
    ChoseReady(s, r, name);
    TakeChosen(store, Chose(s, r, name), r, s.hist[Now(s)].names[name]);
  }

  /** The reader is ready with the attached cache, and its name is the row's. */
  ghost predicate ReadyFor(t: State, r: nat, rid: Rid) {
    && Sane(t) && r in t.readers && t.readers[r].pc == Ready(t.current)
    && Available(t.hist[Now(t)], t.readers[r].name) && t.hist[Now(t)].names[t.readers[r].name] == rid
  }

  lemma {:induction false} ChoseReady(s: State, r: nat, name: Name)
    requires Sane(s) && Available(s.hist[Now(s)], name)
    ensures ReadyFor(Chose(s, r, name), r, s.hist[Now(s)].names[name])
  {
    ChoseHolds(s, r, name);
  }

  lemma {:induction false} TakeChosen(store: Store, t: State, r: nat, rid: Rid)
    requires Reachable(store, t) && ReadyFor(t, r, rid)
    ensures Reachable(store, Took(t, r, t.readers[r].pc.cache, rid))
  {
    TakeAlone(store, t, r, t.current);
  }

  /** The cache chosen: the live one, a new empty one, or none. */
  lemma {:induction false} ChoseHolds(s: State, r: nat, name: Name)
    requires Sane(s)
    ensures var t := Chose(s, r, name);
            && Sane(t) && t.hist == s.hist && t.writes == s.writes
            && t.readers == s.readers[r := Reader(name, s.writes, t.readers[r].pc)] && t.readers[r].pc.Ready?
            && t.readers[r].pc.cache == t.current
            && (s.current.Some? ==> Live(t)) && (s.current == None ==> t.current == None)
            && (Live(t) ==>
                t.caches[t.current.value].items == if Live(s) then s.caches[s.current.value].items else map[])
  {
  }

  lemma {:induction false} TookGives(t: State, r: nat, rid: Rid)
    requires Sane(t) && r in t.readers && rid in t.hist[Now(t)].blobs && (t.current.Some? ==> Live(t))
    ensures var u := Took(t, r, t.current, rid);
            && u.hist == t.hist && u.writes == t.writes && u.readers.Keys == t.readers.Keys
            && Finished(u, r) && u.readers[r].name == t.readers[r].name
            && u.readers[r].pc.rid == rid && u.readers[r].pc.resolvedAt == Now(t)
              && u.readers[r].pc.data == Served(t, rid)
            && (t.current.Some? ==> Live(u) && rid in u.caches[u.current.value].items
                                    && u.caches[u.current.value].items[rid].data == Served(t, rid))
  {
  }

  /** What the finished read was given, and what it leaves in the live cache. */
  lemma {:induction false} ReadDoneGives(s: State, r: nat, name: Name)
    requires Sane(s) && r !in s.readers && Available(s.hist[Now(s)], name)
    ensures var u, rid := ReadDone(s, r, name), s.hist[Now(s)].names[name];
            && u.hist == s.hist && u.writes == s.writes && u.readers.Keys == s.readers.Keys + {r}
            && Finished(u, r) && u.readers[r].name == name
            && u.readers[r].pc.rid == rid && u.readers[r].pc.resolvedAt == Now(s)
              && u.readers[r].pc.data == Served(s, rid)
            && (s.current.Some? ==> Live(u) && rid in u.caches[u.current.value].items
                                    && u.caches[u.current.value].items[rid].data == Served(s, rid))
  {
    ChoseHolds(s, r, name);
    TookGives(Chose(s, r, name), r, s.hist[Now(s)].names[name]);
  }

  /**
   * From every reachable state, a read begun now and left alone finishes, and is mixed
   * exactly when the live cache holds other content for its row than the store.
   */
  lemma {:induction false} AloneMixedExactly(store: Store, s: State, r: nat, name: Name)
    requires Reachable(store, s) && Inv(s) && r !in s.readers && Available(s.hist[Now(s)], name)
    ensures Reachable(store, ReadDone(s, r, name)) && Inv(ReadDone(s, r, name)) && Finished(ReadDone(s, r, name), r)
    ensures Mixed(ReadDone(s, r, name), r) <==> Stale(s, name)
  {
    ReadAlone(store, s, r, name);
    ReachableInv(store, ReadDone(s, r, name));
    ReadDoneGives(s, r, name);
  }

  /** Stale entries come only from moments past the floor: a write has landed that had not returned. */
  lemma {:induction false} StaleNeedsUnreturned(s: State, name: Name)
    requires Inv(s) && Stale(s, name)
    ensures s.floor[s.writes] < Now(s)
    ensures exists t :: s.floor[s.writes] <= t < Now(s) && RowDiffers(s, s.hist[Now(s)].names[name], t, Now(s))
  {
    var c, rid := s.caches[s.current.value], s.hist[Now(s)].names[name];
    assert CacheOk(s, c);
    assert RowDiffers(s, rid, c.items[rid].at, Now(s));
  }

  // ----- a read with a write landing in it

  /**
   * From every reachable state in which a read has resolved its name and will fetch, a
   * write that gives its row other content and lands now makes it a mixed one.
   */
  lemma {:induction false} LandedWriteMixes(store: Store, s: State, r: nat, next: Store)
    returns (u: State)
    requires Reachable(store, s) && Inv(s) && WillFetch(s, r)
    requires s.readers[r].pc.rid in next.blobs
    requires next.blobs[s.readers[r].pc.rid] != s.hist[s.readers[r].pc.resolvedAt].blobs[s.readers[r].pc.rid]
    ensures Reachable(store, u) && u.hist == s.hist + [next] && Inv(u) && Finished(u, r) && Mixed(u, r)
  {
    var pc := s.readers[r].pc;
    assert ReaderOk(s, s.readers[r]);
    var landed := s.(hist := s.hist + [next], inFlight := s.inFlight + {|s.hist|});
    StepReachable(store, s, Land(next));
    assert Apply(s, Land(next)) == landed && landed.hist[Now(landed)] == next;
    u := FetchAndKeep(store, landed, r, pc);
    ReachableInv(store, u);
  }

  /** The read has resolved its name, and its cache, if it has one, does not have the row. */
  ghost predicate WillFetch(s: State, r: nat) {
    && r in s.readers && s.readers[r].pc.Resolved?
    && (s.readers[r].pc.cache.Some? ==>
          s.readers[r].pc.cache.value < |s.caches|
            && s.readers[r].pc.rid !in s.caches[s.readers[r].pc.cache.value].items)
  }

  lemma {:induction false} FetchAndKeep(store: Store, s: State, r: nat, pc: Pc) returns (u: State)
    requires Reachable(store, s) && |s.hist| > 0 && |s.floor| > 0 && WillFetch(s, r) && s.readers[r].pc == pc
    requires pc.rid in s.hist[Now(s)].blobs
    ensures Reachable(store, u) && u.hist == s.hist && Finished(u, r)
    ensures u.readers[r].pc == Done(pc.rid, pc.resolvedAt, s.hist[Now(s)].blobs[pc.rid], Now(s))
  {
    var t := SetPc(s, r, Fetched(pc.cache, pc.rid, pc.resolvedAt, s.hist[Now(s)].blobs[pc.rid], Now(s)));
    StepReachable(store, s, Fetch(r));
    assert Apply(s, Fetch(r)) == t;
    u := KeepFetched(store, t, r, t.readers[r].pc);
  }

  lemma {:induction false} KeepFetched(store: Store, t: State, r: nat, pc: Pc) returns (u: State)
    requires Reachable(store, t) && |t.hist| > 0 && |t.floor| > 0 && r in t.readers && t.readers[r].pc == pc
             && pc.Fetched?
    requires pc.cache.Some? ==> pc.cache.value < |t.caches|
    ensures Reachable(store, u) && u.hist == t.hist && Finished(u, r)
    ensures u.readers[r].pc == Done(pc.rid, pc.resolvedAt, pc.data, pc.at)
  {
    StepReachable(store, t, Keep(r));
    u := Apply(t, Keep(r));
  }

  /** And only so: a fetch gives what the name had unless the row has changed since it was resolved. */
  lemma {:induction false} FetchExactly(s: State, r: nat)
    requires Inv(s) && Enabled(s, Fetch(r))
    ensures var pc := s.readers[r].pc;
            && pc.resolvedAt <= Now(s)
            && Apply(s, Fetch(r)).readers[r].pc.Fetched?
            && (Apply(s, Fetch(r)).readers[r].pc.data != s.hist[pc.resolvedAt].blobs[pc.rid]
                <==> RowDiffers(s, pc.rid, pc.resolvedAt, Now(s)))
            && (RowDiffers(s, pc.rid, pc.resolvedAt, Now(s)) ==> pc.resolvedAt < Now(s))
  {
    assert ReaderOk(s, s.readers[r]);
  }

  /** A hit gives what the name had unless the entry's moment had other content in the row than the resolved one. */
  lemma {:induction false} HitExactly(s: State, r: nat)
    requires Inv(s) && Enabled(s, Hit(r))
    ensures var pc := s.readers[r].pc;
            var c := s.caches[pc.cache.value];
            && s.floor[c.writes] <= c.items[pc.rid].at < |s.hist|
            && (Apply(s, Hit(r)).readers[r].pc.data != s.hist[pc.resolvedAt].blobs[pc.rid]
                <==> RowDiffers(s, pc.rid, c.items[pc.rid].at, pc.resolvedAt))
  {
    var pc := s.readers[r].pc;
    assert ReaderOk(s, s.readers[r]);
    assert CacheOk(s, s.caches[pc.cache.value]);
  }

  // ----- one such run

  /** The store has given the name this content at no moment. */
  ghost predicate NeverHad(s: State, name: Name, data: Bytes) {
    forall t :: 0 <= t < |s.hist| && Available(s.hist[t], name) ==> s.hist[t].blobs[s.hist[t].names[name]] != data
  }

  lemma {:induction false} AttachedReachable(store: Store)
    ensures Reachable(store, Init(store).(caches := [Cache(0, map[])], current := Some(0)))
  {
    var s := Init(store);
    assert Taken([]) && Runs(s, []) && After(s, []) == s;
    StepReachable(store, s, SetCount(0));
    var t := s.(setters := map[0 := 0]);
    assert Apply(s, SetCount(0)) == t;
    StepReachable(store, t, SetStore(0));
    assert Apply(t, SetStore(0)) == s.(caches := [Cache(0, map[])], current := Some(0));
  }

  lemma {:induction false} LandReachable(store: Store, s: State, next: Store)
    requires Reachable(store, s) && |s.hist| > 0 && |s.floor| > 0
    ensures Reachable(store, s.(hist := s.hist + [next], inFlight := s.inFlight + {|s.hist|}))
  {
    StepReachable(store, s, Land(next));
  }

  /**
   * A is read and cached; a write that gives A's row to B lands, and before it returns B
   * is read: the read is given A's content, which B never had.
   */
  lemma {:induction false} ReadByNameCanMix(a: Bytes, b: Bytes)
    requires a != b
    ensures exists store, s, r ::
              Reachable(store, s) && Finished(s, r) && NeverHad(s, s.readers[r].name, s.readers[r].pc.data)
  {
    var A, B, rid := 1, 2, 5;
    var store, other := Store(map[A := rid], map[rid := a]), Store(map[B := rid], map[rid := b]);
    var s := Init(store).(caches := [Cache(0, map[])], current := Some(0));
    AttachedReachable(store);
    ReachableInv(store, s);
    ReadAlone(store, s, 0, A);
    ReadDoneGives(s, 0, A);
    StaleRead(store, ReadDone(s, 0, A), rid, B, other);
  }

  lemma {:induction false} StaleRead(store: Store, s0: State, rid: Rid, B: Name, other: Store)
    requires Reachable(store, s0) && s0.hist == [store] && 1 !in s0.readers
    requires Live(s0) && rid in s0.caches[s0.current.value].items
    requires B !in store.names && Available(other, B) && other.names[B] == rid
    requires other.blobs[rid] != s0.caches[s0.current.value].items[rid].data
    ensures exists s :: Reachable(store, s) && Finished(s, 1) && NeverHad(s, s.readers[1].name, s.readers[1].pc.data)
  {
    ReachableInv(store, s0);
    var s := s0.(hist := s0.hist + [other], inFlight := s0.inFlight + {|s0.hist|});
    LandReachable(store, s0, other);
    assert s.hist[Now(s)] == other && Live(s) && s.caches == s0.caches;
    ReadAlone(store, s, 1, B);
    ReadDoneGives(s, 1, B);
    StaleNeverHad(ReadDone(s, 1, B), store, other, rid, B);
  }

  lemma {:induction false} StaleNeverHad(u: State, store: Store, other: Store, rid: Rid, B: Name)
    requires u.hist == [store] + [other] && Finished(u, 1) && B !in store.names && Available(other, B)
             && other.names[B] == rid
    requires u.readers[1].pc.data != other.blobs[rid]
    ensures NeverHad(u, B, u.readers[1].pc.data)
  {
  }
}
