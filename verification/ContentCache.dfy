/** The content cache of a repository handle, shared by concurrent readers and
    emptied by every finished write, as a system of atomic steps. The store, the
    count of finished writes, the cache pointer and the cache objects are shared;
    each reader goes through the steps of liveCache and of a read by name. */
module ContentCache {
  import opened Basics

  type Name = nat
  type Rid = nat
  type Bytes = seq<int>

  /** What the store holds: which row an artifact name has, and the row's content. A
      write may take rows away and give their numbers to others. */
  datatype Store = Store(names: map<Name, Rid>, blobs: map<Rid, Bytes>)

  /** Cached content, with the moment of the store it was read from. */
  datatype Entry = Entry(data: Bytes, at: nat)

  /** A cache object, valid for the store as it stood after `writes` writes. */
  datatype Cache = Cache(writes: nat, items: map<Rid, Entry>)

  /** Where a read has come to. resolvedAt and at are the moments of the store that
      the row number and the content were taken from. */
  datatype Pc =
    | Begun
    | Loaded(cc: nat)
    | Counted(cc: nat, writes: nat)
    | Ready(cache: Option<nat>)
    | Resolved(cache: Option<nat>, rid: Rid, resolvedAt: nat)
    | Fetched(cache: Option<nat>, rid: Rid, resolvedAt: nat, data: Bytes, at: nat)
    | Done(rid: Rid, resolvedAt: nat, data: Bytes, at: nat)

  /** began is the count of finished writes when the read began. */
  datatype Reader = Reader(name: Name, began: nat, pc: Pc)

  datatype State = State(
    hist: seq<Store>,          // every moment of the store, the last one now
    inFlight: set<nat>,        // the moments made by writes that have not returned
    writes: nat,               // DB.Writes
    floor: seq<nat>,           // floor[w]: the latest moment made by the first w writes
    caches: seq<Cache>,        // every cache object there has been
    current: Option<nat>,      // the attached one
    readers: map<nat, Reader>,
    setters: map<nat, nat>)    // SetContentCache calls that have read the count

  datatype Action =
    | Land(store: Store)
    | Return(moment: nat)
    | ReturnUnlanded
    | SetCount(setter: nat)
    | SetStore(setter: nat)
    | Detach
    | Begin(reader: nat, name: Name)
    | LoadPointer(reader: nat)
    | LoadCount(reader: nat)
    | Choose(reader: nat)
    | Resolve(reader: nat)
    | Hit(reader: nat)
    | Fetch(reader: nat)
    | Keep(reader: nat)
    | Evict(cache: nat, rid: Rid)

  function Now(s: State): nat
    requires |s.hist| > 0
  {
    |s.hist| - 1
  }

  function Init(store: Store): State {
    State([store], {}, 0, [0], [], None, map[], map[])
  }

  predicate At(s: State, r: nat) {
    r in s.readers
  }

  /** The store knows the name and holds its row's content. */
  predicate Available(store: Store, name: Name) {
    name in store.names && store.names[name] in store.blobs
  }

  /** The step can be taken. */
  predicate Enabled(s: State, a: Action)
    requires |s.hist| > 0
  {
    match a
    case Land(_) => true
    case Return(moment) => moment in s.inFlight
    case ReturnUnlanded => true
    case SetCount(_) => true
    case SetStore(setter) => setter in s.setters
    case Detach => true
    case Begin(r, _) => r !in s.readers
    case LoadPointer(r) => At(s, r) && s.readers[r].pc.Begun?
    case LoadCount(r) => At(s, r) && s.readers[r].pc.Loaded?
    case Choose(r) => At(s, r) && s.readers[r].pc.Counted? && s.readers[r].pc.cc < |s.caches|
    case Resolve(r) =>
      At(s, r) && s.readers[r].pc.Ready? && Available(s.hist[Now(s)], s.readers[r].name)
    case Hit(r) =>
      && At(s, r) && s.readers[r].pc.Resolved?
      && var pc := s.readers[r].pc;
      && pc.cache.Some? && pc.cache.value < |s.caches| && pc.rid in s.caches[pc.cache.value].items
    case Fetch(r) =>
      && At(s, r) && s.readers[r].pc.Resolved?
      && var pc := s.readers[r].pc;
      && pc.rid in s.hist[Now(s)].blobs
      && (pc.cache.Some? ==>
            pc.cache.value < |s.caches| && pc.rid !in s.caches[pc.cache.value].items)
    case Keep(r) =>
      && At(s, r) && s.readers[r].pc.Fetched?
      && (s.readers[r].pc.cache.Some? ==> s.readers[r].pc.cache.value < |s.caches|)
    case Evict(c, rid) => c < |s.caches| && rid in s.caches[c].items
  }

  function SetPc(s: State, r: nat, pc: Pc): State
    requires At(s, r)
  {
    s.(readers := s.readers[r := s.readers[r].(pc := pc)])
  }

  function Max(a: nat, b: nat): nat {
    if a < b then b else a
  }

  /** A write has returned, having landed at the moment if it did at all. */
  function Finish(s: State, moment: nat): State
    requires |s.floor| > 0
  {
    s.(inFlight := s.inFlight - {moment}, writes := s.writes + 1,
       floor := s.floor + [Max(s.floor[|s.floor| - 1], moment)])
  }

  function Apply(s: State, a: Action): State
    requires |s.hist| > 0 && |s.floor| > 0 && Enabled(s, a)
  {
    match a
    case Land(store) => s.(hist := s.hist + [store], inFlight := s.inFlight + {|s.hist|})
    case Return(moment) => Finish(s, moment)
    case ReturnUnlanded => Finish(s, 0)
    case SetCount(setter) => s.(setters := s.setters[setter := s.writes])
    case SetStore(setter) =>
      s.(caches := s.caches + [Cache(s.setters[setter], map[])], current := Some(|s.caches|),
         setters := s.setters - {setter})
    case Detach => s.(current := None)
    case Begin(r, name) => s.(readers := s.readers[r := Reader(name, s.writes, Begun)])
    case LoadPointer(r) => SetPc(s, r, if s.current.Some? then Loaded(s.current.value) else Ready(None))
    case LoadCount(r) => SetPc(s, r, Counted(s.readers[r].pc.cc, s.writes))
    case Choose(r) => Chosen(s, r)
    case Resolve(r) =>
      SetPc(s, r, Resolved(s.readers[r].pc.cache, s.hist[Now(s)].names[s.readers[r].name], Now(s)))
    case Hit(r) =>
      var pc := s.readers[r].pc;
      var entry := s.caches[pc.cache.value].items[pc.rid];
      SetPc(s, r, Done(pc.rid, pc.resolvedAt, entry.data, entry.at))
    case Fetch(r) =>
      var pc := s.readers[r].pc;
      SetPc(s, r, Fetched(pc.cache, pc.rid, pc.resolvedAt, s.hist[Now(s)].blobs[pc.rid], Now(s)))
    case Keep(r) =>
      var pc := s.readers[r].pc;
      SetPc(Stored(s, pc), r, Done(pc.rid, pc.resolvedAt, pc.data, pc.at))
    case Evict(c, rid) => s.(caches := s.caches[c := s.caches[c].(items := s.caches[c].items - {rid})])
  }

  /** The rest of liveCache: use the cache if it is current, else try to swap in an
      empty one; losing the swap leaves the read uncached. */
  function Chosen(s: State, r: nat): State
    requires At(s, r) && s.readers[r].pc.Counted? && s.readers[r].pc.cc < |s.caches|
  {
    var pc := s.readers[r].pc;
    if s.caches[pc.cc].writes == pc.writes then SetPc(s, r, Ready(Some(pc.cc)))
    else if s.current == Some(pc.cc) then
      SetPc(s.(caches := s.caches + [Cache(pc.writes, map[])], current := Some(|s.caches|)), r, Ready(Some(|s.caches|)))
    else SetPc(s, r, Ready(None))
  }

  /** What a reader found on a miss, kept in the cache the reader holds unless that
      has it by now. */
  function Stored(s: State, pc: Pc): State
    requires pc.Fetched? && (pc.cache.Some? ==> pc.cache.value < |s.caches|)
  {
    if pc.cache.None? || pc.rid in s.caches[pc.cache.value].items then s
    else
      var c := pc.cache.value;
      s.(caches := s.caches[c := s.caches[c].(items := s.caches[c].items[pc.rid := Entry(pc.data, pc.at)])])
  }

  // ----- what every run keeps

  ghost predicate ReadAt(s: State, rid: Rid, data: Bytes, at: nat) {
    at < |s.hist| && rid in s.hist[at].blobs && s.hist[at].blobs[rid] == data
  }

  ghost predicate ClockOk(s: State) {
    && |s.hist| > 0 && |s.floor| == s.writes + 1
    && (forall w :: 0 <= w < |s.floor| ==> s.floor[w] < |s.hist|)
    && (forall v, w :: 0 <= v <= w < |s.floor| ==> s.floor[v] <= s.floor[w])
    && (forall m :: m in s.inFlight ==> m < |s.hist|)
    && (forall k :: k in s.setters ==> s.setters[k] <= s.writes)
  }

  /** A cache holds only what was read after the writes it counts had landed. */
  ghost predicate CacheOk(s: State, c: Cache)
    requires |s.floor| == s.writes + 1
  {
    c.writes <= s.writes &&
    forall rid :: rid in c.items ==>
      ReadAt(s, rid, c.items[rid].data, c.items[rid].at) && c.items[rid].at >= s.floor[c.writes]
  }

  ghost predicate HeldOk(s: State, cache: Option<nat>, began: nat) {
    cache.Some? ==> cache.value < |s.caches| && began <= s.caches[cache.value].writes
  }

  ghost predicate NameAt(s: State, name: Name, rid: Rid, at: nat) {
    at < |s.hist| && Available(s.hist[at], name) && s.hist[at].names[name] == rid
  }

  ghost predicate ReaderOk(s: State, r: Reader)
    requires |s.floor| == s.writes + 1
  {
    r.began <= s.writes &&
    match r.pc
    case Begun => true
    case Loaded(cc) => cc < |s.caches|
    case Counted(cc, w) => cc < |s.caches| && r.began <= w <= s.writes
    case Ready(cache) => HeldOk(s, cache, r.began)
    case Resolved(cache, rid, resolvedAt) =>
      HeldOk(s, cache, r.began) && NameAt(s, r.name, rid, resolvedAt) && resolvedAt >= s.floor[r.began]
    case Fetched(cache, rid, resolvedAt, data, at) =>
      && HeldOk(s, cache, r.began)
      && NameAt(s, r.name, rid, resolvedAt) && resolvedAt >= s.floor[r.began]
      && ReadAt(s, rid, data, at) && at >= s.floor[r.began]
      && (cache.Some? ==> s.caches[cache.value].writes <= s.writes && at >= s.floor[s.caches[cache.value].writes])
    case Done(rid, resolvedAt, data, at) =>
      && NameAt(s, r.name, rid, resolvedAt) && resolvedAt >= s.floor[r.began]
      && ReadAt(s, rid, data, at) && at >= s.floor[r.began]
  }

  ghost predicate Inv(s: State) {
    && ClockOk(s)
    && (forall c :: 0 <= c < |s.caches| ==> CacheOk(s, s.caches[c]))
    && (s.current.Some? ==> s.current.value < |s.caches|)
    && (forall r :: r in s.readers ==> ReaderOk(s, s.readers[r]))
  }

  lemma {:induction false} InitInv(store: Store)
    ensures Inv(Init(store))
  {
  }

  /** The past stays: moments, floors and the counts that caches carry. */
  ghost predicate Grows(s: State, s': State) {
    && |s.hist| <= |s'.hist| && (forall i :: 0 <= i < |s.hist| ==> s'.hist[i] == s.hist[i])
    && s.writes <= s'.writes
    && |s.floor| <= |s'.floor| && (forall w :: 0 <= w < |s.floor| ==> s'.floor[w] == s.floor[w])
    && |s.caches| <= |s'.caches|
    && (forall c :: 0 <= c < |s.caches| ==> s'.caches[c].writes == s.caches[c].writes)
  }

  lemma {:induction false} ReaderGrows(s: State, s': State, r: Reader)
    requires |s.floor| == s.writes + 1 && |s'.floor| == s'.writes + 1
    requires ReaderOk(s, r) && Grows(s, s')
    ensures ReaderOk(s', r)
  {
  }

  lemma {:induction false} CacheGrows(s: State, s': State, c: Cache)
    requires |s.floor| == s.writes + 1 && |s'.floor| == s'.writes + 1
    requires CacheOk(s, c) && Grows(s, s')
    ensures CacheOk(s', c)
  {
  }

  /** A step that touches no cache and some readers keeps the invariant when it leaves those
      readers right. */
  lemma {:induction false} ReaderStep(s: State, s': State, touched: set<nat>)
    requires Inv(s) && ClockOk(s') && Grows(s, s') && s'.caches == s.caches
    requires s'.current.Some? ==> s'.current.value < |s'.caches|
    requires forall q :: q in s'.readers && q !in touched ==> q in s.readers && s'.readers[q] == s.readers[q]
    requires forall q :: q in s'.readers && q in touched ==> ReaderOk(s', s'.readers[q])
    ensures Inv(s')
  {
    forall c | 0 <= c < |s'.caches| ensures CacheOk(s', s'.caches[c]) {
      CacheGrows(s, s', s.caches[c]);
    }
    forall q | q in s'.readers ensures ReaderOk(s', s'.readers[q]) {
      if q !in touched {
        ReaderGrows(s, s', s.readers[q]);
      }
    }
  }

  /** A step that moves no clock and leaves each cache with its count and right keeps
      the invariant when it leaves the readers it touches right. */
  lemma {:induction false} CacheStep(s: State, s': State, touched: set<nat>)
    requires Inv(s) && ClockOk(s') && Grows(s, s')
    requires s'.current.Some? ==> s'.current.value < |s'.caches|
    requires forall c :: 0 <= c < |s'.caches| ==> CacheOk(s', s'.caches[c])
    requires forall q :: q in s'.readers && q !in touched ==> q in s.readers && s'.readers[q] == s.readers[q]
    requires forall q :: q in s'.readers && q in touched ==> ReaderOk(s', s'.readers[q])
    ensures Inv(s')
  {
    forall q | q in s'.readers ensures ReaderOk(s', s'.readers[q]) {
      if q !in touched {
        ReaderGrows(s, s', s.readers[q]);
      }
    }
  }

  lemma {:induction false} WriteStepInv(s: State, a: Action)
    requires Inv(s) && Enabled(s, a) && (a.Land? || a.Return? || a.ReturnUnlanded? || a.SetCount? || a.Detach?)
    ensures Inv(Apply(s, a)) && Grows(s, Apply(s, a))
  {
    var s' := Apply(s, a);
    ReaderStep(s, s', {});
  }

  lemma {:induction false} ChoosingInv(s: State, a: Action)
    requires Inv(s) && Enabled(s, a) && (a.Begin? || a.LoadPointer? || a.LoadCount?)
    ensures Inv(Apply(s, a)) && Grows(s, Apply(s, a))
  {
    assert a.reader in s.readers ==> ReaderOk(s, s.readers[a.reader]);
    ReaderStep(s, Apply(s, a), {a.reader});
  }

  lemma {:induction false} ResolveInv(s: State, r: nat)
    requires Inv(s) && Enabled(s, Resolve(r))
    ensures Inv(Apply(s, Resolve(r))) && Grows(s, Apply(s, Resolve(r)))
  {
    assert ReaderOk(s, s.readers[r]);
    assert s.floor[s.writes] <= Now(s);
    ReaderStep(s, Apply(s, Resolve(r)), {r});
  }

  lemma {:induction false} HitInv(s: State, r: nat)
    requires Inv(s) && Enabled(s, Hit(r))
    ensures Inv(Apply(s, Hit(r))) && Grows(s, Apply(s, Hit(r)))
  {
    assert ReaderOk(s, s.readers[r]);
    assert CacheOk(s, s.caches[s.readers[r].pc.cache.value]);
    ReaderStep(s, Apply(s, Hit(r)), {r});
  }

  lemma {:induction false} FetchInv(s: State, r: nat)
    requires Inv(s) && Enabled(s, Fetch(r))
    ensures Inv(Apply(s, Fetch(r))) && Grows(s, Apply(s, Fetch(r)))
  {
    assert ReaderOk(s, s.readers[r]);
    assert s.floor[s.writes] <= Now(s);
    ReaderStep(s, Apply(s, Fetch(r)), {r});
  }

  lemma {:induction false} ChooseInv(s: State, r: nat)
    requires Inv(s) && Enabled(s, Choose(r))
    ensures Inv(Apply(s, Choose(r))) && Grows(s, Apply(s, Choose(r)))
  {
    var pc := s.readers[r].pc;
    assert ReaderOk(s, s.readers[r]);
    if s.caches[pc.cc].writes == pc.writes || s.current != Some(pc.cc) {
      ReaderStep(s, Apply(s, Choose(r)), {r});
    } else {
      SwapInv(s, r, pc);
    }
  }

  /** An empty cache swapped in for one that predates the latest finished write. */
  lemma {:induction false} SwapInv(s: State, r: nat, pc: Pc)
    requires Inv(s) && Enabled(s, Choose(r)) && s.readers[r].pc == pc
    requires s.caches[pc.cc].writes != pc.writes && s.current == Some(pc.cc)
    ensures Inv(Apply(s, Choose(r))) && Grows(s, Apply(s, Choose(r)))
  {
    var s' := Apply(s, Choose(r));
    assert ReaderOk(s, s.readers[r]);
    forall c | 0 <= c < |s'.caches| ensures CacheOk(s', s'.caches[c]) {
      if c < |s.caches| {
        CacheGrows(s, s', s.caches[c]);
      }
    }
    CacheStep(s, s', {r});
  }

  /** What was fetched lands in the held cache, which stays right. */
  lemma {:induction false} StoredInv(s: State, r: nat, pc: Pc)
    requires Inv(s) && Enabled(s, Keep(r)) && s.readers[r].pc == pc
    ensures Inv(Stored(s, pc)) && Grows(s, Stored(s, pc))
  {
    var t := Stored(s, pc);
    assert ReaderOk(s, s.readers[r]);
    forall c | 0 <= c < |t.caches| ensures CacheOk(t, t.caches[c]) {
      CacheGrows(s, t, s.caches[c]);
    }
    CacheStep(s, t, {});
  }

  /** A reader that fetched is done. */
  lemma {:induction false} FetchedInv(t: State, r: nat, pc: Pc)
    requires Inv(t) && r in t.readers && t.readers[r].pc == pc && pc.Fetched?
    ensures Inv(SetPc(t, r, Done(pc.rid, pc.resolvedAt, pc.data, pc.at)))
  {
    assert ReaderOk(t, t.readers[r]);
    ReaderStep(t, SetPc(t, r, Done(pc.rid, pc.resolvedAt, pc.data, pc.at)), {r});
  }

  lemma {:induction false} KeepInv(s: State, r: nat)
    requires Inv(s) && Enabled(s, Keep(r))
    ensures Inv(Apply(s, Keep(r))) && Grows(s, Apply(s, Keep(r)))
  {
    StoredInv(s, r, s.readers[r].pc);
    FetchedInv(Stored(s, s.readers[r].pc), r, s.readers[r].pc);
  }

  lemma {:induction false} CacheOnlyInv(s: State, a: Action)
    requires Inv(s) && Enabled(s, a) && (a.SetStore? || a.Evict?)
    ensures Inv(Apply(s, a)) && Grows(s, Apply(s, a))
  {
    var s' := Apply(s, a);
    forall c | 0 <= c < |s'.caches| ensures CacheOk(s', s'.caches[c]) {
      if c < |s.caches| {
        CacheGrows(s, s', s.caches[c]);
      }
    }
    CacheStep(s, s', {});
  }

  /** Every step keeps the invariant. */
  lemma {:induction false} StepInv(s: State, a: Action)
    requires Inv(s) && Enabled(s, a)
    ensures Inv(Apply(s, a)) && Grows(s, Apply(s, a))
  {
    match a
    case Land(_) => WriteStepInv(s, a);
    case Return(_) => WriteStepInv(s, a);
    case ReturnUnlanded => WriteStepInv(s, a);
    case SetCount(_) => WriteStepInv(s, a);
    case Detach => WriteStepInv(s, a);
    case SetStore(_) => CacheOnlyInv(s, a);
    case Evict(_, _) => CacheOnlyInv(s, a);
    case Choose(r) => ChooseInv(s, r);
    case Keep(r) => KeepInv(s, r);
    case Begin(_, _) => ChoosingInv(s, a);
    case LoadPointer(_) => ChoosingInv(s, a);
    case LoadCount(_) => ChoosingInv(s, a);
    case Resolve(r) => ResolveInv(s, r);
    case Hit(r) => HitInv(s, r);
    case Fetch(r) => FetchInv(s, r);
  }

  // ----- runs

  /** There is a store and a count to step from; every step keeps it so. */
  predicate Steppable(s: State) {
    |s.hist| > 0 && |s.floor| > 0
  }

  /** The state after the actions, those that cannot be taken being passed over. */
  ghost function After(s: State, actions: seq<Action>): (s': State)
    requires Steppable(s)
    ensures Steppable(s')
  {
    if actions == [] then s
    else
      var before := After(s, actions[..|actions| - 1]);
      if Enabled(before, actions[|actions| - 1]) then Apply(before, actions[|actions| - 1]) else before
  }

  /** The actions can be taken one after the other from s. */
  ghost predicate Runs(s: State, actions: seq<Action>)
    requires Steppable(s)
  {
    if actions == [] then true
    else
      var init := actions[..|actions| - 1];
      Runs(s, init) && Enabled(After(s, init), actions[|actions| - 1])
  }

  lemma {:induction false} Extend(s: State, actions: seq<Action>, a: Action)
    requires Steppable(s) && Runs(s, actions) && Enabled(After(s, actions), a)
    ensures Runs(s, actions + [a]) && After(s, actions + [a]) == Apply(After(s, actions), a)
  {
    assert (actions + [a])[..|actions|] == actions;
  }

  /** Every run keeps the invariant, and the past. */
  lemma {:induction false} RunInv(s: State, actions: seq<Action>)
    requires Inv(s) && Runs(s, actions)
    ensures Inv(After(s, actions)) && Grows(s, After(s, actions))
  {
    if actions != [] {
      var init := actions[..|actions| - 1];
      RunInv(s, init);
      StepInv(After(s, init), actions[|actions| - 1]);
    }
  }

  /** A run falls into its parts. */
  lemma {:induction false} SplitRun(s: State, a: seq<Action>, b: seq<Action>)
    requires Steppable(s) && Runs(s, a + b)
    ensures Runs(s, a) && Runs(After(s, a), b) && After(s, a + b) == After(After(s, a), b)
  {
    if b == [] {
      assert a + b == a;
    } else {
      assert (a + b)[..|a + b| - 1] == a + b[..|b| - 1];
      SplitRun(s, a, b[..|b| - 1]);
    }
  }

  lemma {:induction false} StepKeepsStart(s: State, a: Action, r: nat)
    requires |s.hist| > 0 && |s.floor| > 0 && Enabled(s, a) && r in s.readers
    ensures r in Apply(s, a).readers
    ensures Apply(s, a).readers[r].name == s.readers[r].name
    ensures Apply(s, a).readers[r].began == s.readers[r].began
  {
  }

  /** Once begun, a read keeps its name and the count it began at. */
  lemma {:induction false} ReadKeepsStart(s: State, actions: seq<Action>, r: nat)
    requires Steppable(s) && Runs(s, actions) && r in s.readers
    ensures r in After(s, actions).readers
    ensures After(s, actions).readers[r].name == s.readers[r].name
    ensures After(s, actions).readers[r].began == s.readers[r].began
  {
    if actions != [] {
      var init := actions[..|actions| - 1];
      ReadKeepsStart(s, init, r);
      StepKeepsStart(After(s, init), actions[|actions| - 1], r);
    }
  }

  /** Every write that has returned landed at or before the floor. */
  lemma {:induction false} ReturnedBelowFloor(s: State, actions: seq<Action>, m: nat)
    requires Inv(s) && Runs(s, actions) && Return(m) in actions
    ensures var s' := After(s, actions); m <= s'.floor[|s'.floor| - 1]
  {
    var init := actions[..|actions| - 1];
    var s', last := After(s, init), actions[|actions| - 1];
    RunInv(s, init);
    if last != Return(m) {
      ReturnedBelowFloor(s, init, m);
      StepInv(s', last);
    }
  }

  /** In every interleaving, a read that has finished took both its row number and its
      content from moments of the store that every write returned before the read
      began had already made, and gives the content its row had at that moment. */
  lemma {:induction false} ReadReflectsReturnedWrites(
    store: Store, before: seq<Action>, r: nat, name: Name, after: seq<Action>, m: nat)
    requires Runs(Init(store), before + [Begin(r, name)] + after)
    requires Finished(After(Init(store), before + [Begin(r, name)] + after), r)
    requires Return(m) in before
    ensures var s := After(Init(store), before + [Begin(r, name)] + after);
            var pc := s.readers[r].pc;
            && m <= pc.resolvedAt < |s.hist| && m <= pc.at < |s.hist|
            && NameAt(s, name, pc.rid, pc.resolvedAt)
            && ReadAt(s, pc.rid, pc.data, pc.at)
  {
    var s0 := Init(store);
    var upTo := before + [Begin(r, name)];
    InitInv(store);
    SplitRun(s0, upTo, after);
    SplitRun(s0, before, [Begin(r, name)]);
    assert [Begin(r, name)][..0] == [];
    var s1 := After(s0, before);
    var s2 := After(s0, upTo);
    ReturnedBelowFloor(s0, before, m);
    assert s2 == Apply(s1, Begin(r, name));
    ReadKeepsStart(s2, after, r);
    RunInv(s0, before);
    RunInv(s0, upTo);
    RunInv(s2, after);
    var s := After(s2, after);
    assert ReaderOk(s, s.readers[r]);
    assert s.floor[s1.writes] == s1.floor[s1.writes];
  }

  ghost predicate Finished(s: State, r: nat) {
    r in s.readers && s.readers[r].pc.Done?
  }

  /** When no write is under way, that is, when every moment of the store was made by
      a write that had returned before the read began, the read gives what the store
      holds under the name: a cached read is then an uncached one. */
  lemma {:induction false} QuietReadIsExact(s: State, r: nat)
    requires Inv(s) && r in s.readers && s.readers[r].pc.Done?
    requires s.floor[s.readers[r].began] == Now(s)
    ensures var now, pc := s.hist[Now(s)], s.readers[r].pc;
            && s.readers[r].name in now.names && now.names[s.readers[r].name] == pc.rid
            && pc.rid in now.blobs && now.blobs[pc.rid] == pc.data
  {
    assert ReaderOk(s, s.readers[r]);
  }

  // ----- in-flight reads and successor caches

  /** The cache a read has been given, once it has chosen. */
  ghost predicate Holds(r: Reader, cache: Option<nat>) {
    match r.pc
    case Ready(c) => c == cache
    case Resolved(c, _, _) => c == cache
    case Fetched(c, _, _, _, _) => c == cache
    case Done(_, _, _, _) => true
    case _ => false
  }

  lemma {:induction false} StepKeepsHeld(s: State, a: Action, r: nat, cache: Option<nat>)
    requires |s.hist| > 0 && |s.floor| > 0 && Enabled(s, a) && r in s.readers && Holds(s.readers[r], cache)
    ensures r in Apply(s, a).readers && Holds(Apply(s, a).readers[r], cache)
  {
  }

  lemma {:induction false} HeldCacheStays(s: State, actions: seq<Action>, r: nat, cache: Option<nat>)
    requires Steppable(s) && Runs(s, actions) && r in s.readers && Holds(s.readers[r], cache)
    ensures r in After(s, actions).readers && Holds(After(s, actions).readers[r], cache)
  {
    if actions != [] {
      var init := actions[..|actions| - 1];
      HeldCacheStays(s, init, r, cache);
      StepKeepsHeld(After(s, init), actions[|actions| - 1], r, cache);
    }
  }

  /** However the run goes on, what a read in flight stores lands in the cache it was
      given and in no other; in particular in none attached or made since. */
  lemma {:induction false} InFlightStoresStay(s: State, actions: seq<Action>, r: nat, cache: Option<nat>, c: nat)
    requires Steppable(s) && Runs(s, actions) && r in s.readers && Holds(s.readers[r], cache)
    requires Enabled(After(s, actions), Keep(r)) && c < |After(s, actions).caches| && cache != Some(c)
    ensures var now := After(s, actions); Apply(now, Keep(r)).caches[c] == now.caches[c]
  {
    HeldCacheStays(s, actions, r, cache);
  }
}
