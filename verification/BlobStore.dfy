/** The artifact store: rows that may be phantoms, deltas against other rows, and what a read makes of them. */
module BlobStore {
  import opened Basics

  type Bytes = seq<int>

  datatype Alg = SHA1 | SHA3

  /** The hash functions and the delta coding, which the store only calls. */
  datatype Codec = Codec(hash: (Alg, Bytes) -> string, apply: (Bytes, Bytes) -> Option<Bytes>,
    outputSize: Bytes -> Option<nat>)

  datatype Row = Row(uuid: string, size: int, content: Option<Bytes>)

  datatype Tables = Tables(
    blob: map<nat, Row>, phantom: set<nat>, delta: map<nat, nat>, unclustered: set<nat>, policy: Option<int>)

  const SHA1_LEN: nat := 40
  const MAX_CHAIN: nat := 16384

  const POLICY_SHA1: int := 0
  const POLICY_AUTO: int := 1
  const POLICY_SHA3: int := 2
  const POLICY_SHA3_ONLY: int := 3
  const POLICY_SHUN_SHA1: int := 4

  function Other(a: Alg): Alg {
    if a == SHA1 then SHA3 else SHA1
  }

  // ------------------------------------------------------------------ the hash policy

  datatype Naming = Naming(alg: Alg, reuseLegacy: bool)

  ghost predicate HasSHA3(blob: map<nat, Row>) {
    exists r :: r in blob && |blob[r].uuid| > SHA1_LEN
  }

  ghost predicate HasSHA1(blob: map<nat, Row>) {
    exists r :: r in blob && |blob[r].uuid| == SHA1_LEN
  }

  /** The policy in force: the stored one if it is a policy, or the default for what the repository holds. */
  ghost function Policy(t: Tables): Option<int> {
    match t.policy
    case Some(n) => if POLICY_SHA1 <= n <= POLICY_SHUN_SHA1 then Some(n) else None
    case None => Some(if HasSHA3(t.blob) || !HasSHA1(t.blob) then POLICY_SHA3 else POLICY_AUTO)
  }

  ghost function NamingFor(t: Tables): Option<Naming> {
    match Policy(t)
    case None => None
    case Some(p) =>
      Some(Naming(
        if p >= POLICY_SHA3 || (p == POLICY_AUTO && t.policy.Some? && HasSHA3(t.blob)) then SHA3 else SHA1,
        p < POLICY_SHA3_ONLY))
  }

  /** The five policies, and none: which hash names new content, and whether a name by the other may stand. */
  lemma {:induction false} NamingByPolicy(t: Tables)
    ensures t.policy == Some(POLICY_SHA1) ==> NamingFor(t) == Some(Naming(SHA1, true))
    ensures t.policy == Some(POLICY_AUTO) ==>
              NamingFor(t) == Some(Naming(if HasSHA3(t.blob) then SHA3 else SHA1, true))
    ensures t.policy == Some(POLICY_SHA3) ==> NamingFor(t) == Some(Naming(SHA3, true))
    ensures t.policy == Some(POLICY_SHA3_ONLY) || t.policy == Some(POLICY_SHUN_SHA1) ==>
              NamingFor(t) == Some(Naming(SHA3, false))
    ensures t.policy.Some? && !(POLICY_SHA1 <= t.policy.value <= POLICY_SHUN_SHA1) ==> NamingFor(t) == None
    ensures t.policy == None ==>
              NamingFor(t) == Some(Naming(if HasSHA1(t.blob) && !HasSHA3(t.blob) then SHA1 else SHA3, true))
  {
  }

  /** A SHA3 name entering an auto repository turns it to sha3 for good. */
  ghost function Promoted(t: Tables, uuid: string): Option<int> {
    if |uuid| > SHA1_LEN && Policy(t) == Some(POLICY_AUTO) then Some(POLICY_SHA3) else t.policy
  }

  // -------------------------------------------------------------------- rows and names

  /** Names are unique, phantoms are the rows without content, and only rows with content are deltas. */
  ghost predicate Inv(t: Tables) {
    && (forall r, s :: r in t.blob && s in t.blob && t.blob[r].uuid == t.blob[s].uuid ==> r == s)
    && (forall r :: r in t.phantom <==> r in t.blob && t.blob[r].size == -1)
    && (forall r :: r in t.blob ==> t.blob[r].size >= -1 && (t.blob[r].size == -1 <==> t.blob[r].content == None))
    && (forall r :: r in t.delta ==> r in t.blob && t.blob[r].size != -1)
    && (forall r :: r in t.unclustered ==> r in t.blob && t.blob[r].size != -1)
  }

  ghost predicate Named(t: Tables, uuid: string, rid: nat) {
    rid in t.blob && t.blob[rid].uuid == uuid
  }

  ghost predicate Known(t: Tables, uuid: string) {
    exists rid :: Named(t, uuid, rid)
  }

  predicate Real(t: Tables, rid: nat) {
    rid in t.blob && t.blob[rid].size != -1
  }

  /** A row holding content is under the name. */
  ghost predicate Held(t: Tables, uuid: string) {
    exists rid :: Named(t, uuid, rid) && Real(t, rid)
  }

  // ----------------------------------------------------------------------- expansion

  predicate Loads(t: Tables, rid: nat) {
    rid in t.blob && t.blob[rid].size != -1 && t.blob[rid].content.Some?
  }

  /** The content of a row whose delta chain has at most depth rows, not checked against its name. */
  function Expansion(c: Codec, t: Tables, rid: nat, depth: nat): Option<Bytes>
    decreases depth
  {
    if depth == 0 || !Loads(t, rid) then None
    else if rid !in t.delta then t.blob[rid].content
    else
      var source := Expansion(c, t, t.delta[rid], depth - 1);
      if source == None then None else c.apply(source.value, t.blob[rid].content.value)
  }

  function AlgOf(uuid: string): Alg {
    if |uuid| == 64 then SHA3 else SHA1
  }

  /** What a read returns: the expansion, if the row's name is its hash. */
  function Read(c: Codec, t: Tables, rid: nat): Option<Bytes> {
    var e := Expansion(c, t, rid, MAX_CHAIN);
    if e.Some? && c.hash(AlgOf(t.blob[rid].uuid), e.value) == t.blob[rid].uuid then e else None
  }

  // -------------------------------------------------------------------------- replays

  /** Root first: each row after the first is a delta of the one before. */
  ghost predicate RootFirst(delta: map<nat, nat>, chain: seq<nat>) {
    chain != [] && chain[0] !in delta && forall i {:trigger chain[i]} :: 0 < i < |chain| ==>
        chain[i] in delta && delta[chain[i]] == chain[i - 1]
  }

  /** The contents along a chain: the root's own, and then each made from the one before by the row's delta. */
  ghost predicate Replays(c: Codec, t: Tables, chain: seq<nat>, contents: seq<Bytes>) {
    && RootFirst(t.delta, chain) && |contents| == |chain|
    && (forall i {:trigger chain[i]} :: 0 <= i < |chain| ==> Loads(t, chain[i]))
    && t.blob[chain[0]].content == Some(contents[0])
    && forall i {:trigger contents[i]} :: 0 < i < |chain| ==>
         c.apply(contents[i - 1], t.blob[chain[i]].content.value) == Some(contents[i])
  }

  /** Replaying the row's whole chain, of at most limit rows, gives x. */
  ghost predicate Replayed(c: Codec, t: Tables, rid: nat, x: Bytes, limit: nat) {
    exists chain, contents ::
      && Replays(c, t, chain, contents) && |chain| <= limit
      && chain[|chain| - 1] == rid && contents[|chain| - 1] == x
  }

  /** What content would be called, by the hash that a name of that length is of. */
  function NameOf(c: Codec, uuid: string, x: Bytes): string {
    c.hash(if |uuid| == 64 then SHA3 else SHA1, x)
  }

  /** The row reads as x: its chain replays to it, and it is what the row's name says. */
  ghost predicate ReadsAs(c: Codec, t: Tables, rid: nat, x: Bytes) {
    Replayed(c, t, rid, x, MAX_CHAIN) && rid in t.blob && NameOf(c, t.blob[rid].uuid, x) == t.blob[rid].uuid
  }

  lemma {:induction false} ReplayOne(c: Codec, t: Tables, chain: seq<nat>, contents: seq<Bytes>, rid: nat, x: Bytes)
    requires Replays(c, t, chain, contents) && Loads(t, rid)
    requires rid in t.delta && t.delta[rid] == chain[|chain| - 1]
    requires c.apply(contents[|chain| - 1], t.blob[rid].content.value) == Some(x)
    ensures Replays(c, t, chain + [rid], contents + [x])
  {
    var longer, more := chain + [rid], contents + [x];
    forall i {:trigger longer[i]} | 0 <= i < |longer| ensures Loads(t, longer[i]) {
      assert i < |chain| ==> longer[i] == chain[i];
    }
    forall i {:trigger longer[i]} | 0 < i < |longer|
      ensures longer[i] in t.delta && t.delta[longer[i]] == longer[i - 1]
    {
      assert i < |chain| ==> longer[i] == chain[i];
    }
    forall i {:trigger more[i]} | 0 < i < |longer|
      ensures c.apply(more[i - 1], t.blob[longer[i]].content.value) == Some(more[i])
    {
      assert i < |chain| ==> more[i] == contents[i] && longer[i] == chain[i];
    }
  }

  lemma {:induction false} ExpansionReplays(c: Codec, t: Tables, rid: nat, depth: nat)
    returns (chain: seq<nat>, contents: seq<Bytes>)
    requires Expansion(c, t, rid, depth).Some?
    ensures Replays(c, t, chain, contents) && |chain| <= depth && chain[|chain| - 1] == rid
    ensures Expansion(c, t, rid, depth) == Some(contents[|chain| - 1])
    decreases depth
  {
    if rid in t.delta {
      chain, contents := ExpansionReplays(c, t, t.delta[rid], depth - 1);
      var x := Expansion(c, t, rid, depth).value;
      ReplayOne(c, t, chain, contents, rid, x);
      chain, contents := chain + [rid], contents + [x];
    } else {
      chain, contents := [rid], [t.blob[rid].content.value];
    }
  }

  lemma {:induction false} ReplayExpands(
    c: Codec, t: Tables, chain: seq<nat>, contents: seq<Bytes>, i: nat, depth: nat)
    requires Replays(c, t, chain, contents) && i < |chain| && i < depth
    ensures Expansion(c, t, chain[i], depth) == Some(contents[i])
    decreases i
  {
    assert Loads(t, chain[i]);
    if i > 0 {
      ReplayExpands(c, t, chain, contents, i - 1, depth - 1);
      assert c.apply(contents[i - 1], t.blob[chain[i]].content.value) == Some(contents[i]);
    }
  }

  /** The expansion is what replaying the whole chain gives. */
  lemma {:induction false} ExpansionExactly(c: Codec, t: Tables, rid: nat, depth: nat)
    ensures forall x :: Expansion(c, t, rid, depth) == Some(x) <==> Replayed(c, t, rid, x, depth)
  {
    forall x ensures Expansion(c, t, rid, depth) == Some(x) <==> Replayed(c, t, rid, x, depth) {
      if Expansion(c, t, rid, depth) == Some(x) {
        var chain, contents := ExpansionReplays(c, t, rid, depth);
      }
      if Replayed(c, t, rid, x, depth) {
        var chain, contents :| && Replays(c, t, chain, contents) && |chain| <= depth
                               && chain[|chain| - 1] == rid && contents[|chain| - 1] == x;
        ReplayExpands(c, t, chain, contents, |chain| - 1, depth);
      }
    }
  }

  lemma {:induction false} ReadExactly(c: Codec, t: Tables, rid: nat)
    ensures forall x :: Read(c, t, rid) == Some(x) <==> ReadsAs(c, t, rid, x)
  {
    ExpansionExactly(c, t, rid, MAX_CHAIN);
  }

  // -------------------------------------------------------- what a store never changes

  /** Every row keeps its name; a row with content keeps it, and what it is a delta of. */
  ghost predicate Grows(t: Tables, u: Tables) {
    && (forall r :: r in t.blob ==> r in u.blob && u.blob[r].uuid == t.blob[r].uuid)
    && (forall r :: Real(t, r) ==>
        u.blob[r] == t.blob[r] && (r in u.delta <==> r in t.delta) && (r in t.delta ==> u.delta[r] == t.delta[r]))
    && t.unclustered <= u.unclustered
  }

  lemma {:induction false} GrowsTransitive(t: Tables, u: Tables, v: Tables)
    requires Grows(t, u) && Grows(u, v)
    ensures Grows(t, v)
  {
    forall r | Real(t, r)
      ensures v.blob[r] == t.blob[r] && (r in v.delta <==> r in t.delta)
              && (r in t.delta ==> v.delta[r] == t.delta[r])
    {
      assert Real(u, r);
    }
  }

  /** What has been expandable stays so, with the same content, however deep its chain. */
  lemma {:induction false} ExpansionStays(c: Codec, t: Tables, u: Tables, rid: nat, depth: nat)
    requires Grows(t, u) && Expansion(c, t, rid, depth).Some?
    ensures Expansion(c, u, rid, depth) == Expansion(c, t, rid, depth)
    decreases depth
  {
    assert Real(t, rid);
    if rid in t.delta {
      ExpansionStays(c, t, u, t.delta[rid], depth - 1);
    }
  }

  lemma {:induction false} ReadStays(c: Codec, t: Tables, u: Tables, rid: nat)
    requires Grows(t, u) && Read(c, t, rid).Some?
    ensures Read(c, u, rid) == Read(c, t, rid)
  {
    ExpansionStays(c, t, u, rid, MAX_CHAIN);
    assert Real(t, rid);
  }

  lemma {:induction false} ReplayStays(c: Codec, t: Tables, u: Tables, chain: seq<nat>, contents: seq<Bytes>)
    requires Grows(t, u) && Replays(c, t, chain, contents)
    ensures Replays(c, u, chain, contents)
  {
    forall i {:trigger chain[i]} | 0 <= i < |chain|
      ensures Loads(u, chain[i]) && u.blob[chain[i]] == t.blob[chain[i]]
      ensures chain[i] in u.delta <==> chain[i] in t.delta
      ensures chain[i] in t.delta ==> u.delta[chain[i]] == t.delta[chain[i]]
    {
      assert Loads(t, chain[i]) && Real(t, chain[i]);
    }
  }

  // ---------------------------------------------------------------------- operations

  datatype Op =
    | Store(content: Bytes)
    | StoreUnderPolicy(content: Bytes)
    | StoreDeltaRaw(uuid: string, bytes: Bytes, source: nat)
    | StorePhantom(uuid: string)

  /** rid, until now the name's phantom or no row at all, holds the bytes under the name. */
  ghost predicate Filled(t: Tables, u: Tables, uuid: string, size: nat, bytes: Bytes, rid: nat) {
    && (Named(t, uuid, rid) || (!Known(t, uuid) && rid !in t.blob))
    && u.blob == t.blob[rid := Row(uuid, size, Some(bytes))]
    && u.phantom == t.phantom - {rid}
    && u.unclustered == t.unclustered + {rid}
    && u.policy == Promoted(t, uuid)
  }

  /** The name content goes by: its primary one, unless only the other is held and may be reused. */
  ghost function StoredAs(c: Codec, t: Tables, naming: Naming, content: Bytes): string {
    var primary, legacy := c.hash(naming.alg, content), c.hash(Other(naming.alg), content);
    if !Held(t, primary) && naming.reuseLegacy && Held(t, legacy) then legacy else primary
  }

  /** The name is held and nothing changes, or the content is written in full under it. */
  ghost predicate StoresAs(t: Tables, u: Tables, uuid: string, content: Bytes) {
    if Held(t, uuid) then u == t
    else exists rid :: Filled(t, u, uuid, |content|, content, rid) && u.delta == t.delta
  }

  ghost predicate Steps(c: Codec, t: Tables, op: Op, u: Tables) {
    match op
    case Store(content) =>
      var naming := NamingFor(t);
      if naming == None then u == t else StoresAs(t, u, StoredAs(c, t, naming.value, content), content)
    case StoreUnderPolicy(content) =>
      var naming := NamingFor(t);
      if naming == None then u == t else StoresAs(t, u, c.hash(naming.value.alg, content), content)
    case StoreDeltaRaw(uuid, bytes, source) =>
      if Held(t, uuid) || c.outputSize(bytes) == None || (|uuid| > SHA1_LEN && Policy(t) == None) then u == t
      else exists rid :: Filled(t, u, uuid, c.outputSize(bytes).value, bytes, rid) && u.delta == t.delta[rid := source]
    case StorePhantom(uuid) =>
      if Known(t, uuid) then u == t
      else
        exists rid ::
          rid !in t.blob && u == t.(blob := t.blob[rid := Row(uuid, -1, None)], phantom := t.phantom + {rid})
  }

  /** The row written was not holding anything, and no other row has the name. */
  lemma {:induction false} OnlyRow(t: Tables, uuid: string, rid: nat)
    requires Inv(t) && !Held(t, uuid) && (Named(t, uuid, rid) || (!Known(t, uuid) && rid !in t.blob))
    ensures !Real(t, rid) && rid !in t.delta
    ensures forall r :: r in t.blob && r != rid ==> t.blob[r].uuid != uuid
  {
    forall r | r in t.blob && r != rid ensures t.blob[r].uuid != uuid {
      if t.blob[r].uuid == uuid {
        assert Named(t, uuid, r);
      }
    }
  }

  lemma {:induction false} FilledGrows(t: Tables, u: Tables, uuid: string, size: nat, bytes: Bytes, rid: nat)
    requires Inv(t) && !Held(t, uuid) && Filled(t, u, uuid, size, bytes, rid) && u.delta - {rid} == t.delta - {rid}
    ensures Grows(t, u)
  {
    OnlyRow(t, uuid, rid);
    forall r | Real(t, r)
      ensures u.blob[r] == t.blob[r] && (r in u.delta <==> r in t.delta)
              && (r in t.delta ==> u.delta[r] == t.delta[r])
    {
      assert r in u.delta - {rid} <==> r in t.delta - {rid};
      assert r in t.delta ==> (u.delta - {rid})[r] == (t.delta - {rid})[r];
    }
  }

  lemma {:induction false} FilledInv(t: Tables, u: Tables, uuid: string, size: nat, bytes: Bytes, rid: nat)
    requires Inv(t) && !Held(t, uuid) && Filled(t, u, uuid, size, bytes, rid) && u.delta - {rid} == t.delta - {rid}
    ensures Inv(u) && Grows(t, u)
  {
    OnlyRow(t, uuid, rid);
    FilledGrows(t, u, uuid, size, bytes, rid);
    forall r, s | r in u.blob && s in u.blob && u.blob[r].uuid == u.blob[s].uuid ensures r == s {
      assert r != rid ==> u.blob[r] == t.blob[r];
      assert s != rid ==> u.blob[s] == t.blob[s];
    }
    forall r | r in u.delta ensures r in u.blob && u.blob[r].size != -1 {
      assert r != rid ==> r in t.delta - {rid};
    }
  }

  lemma {:induction false} PhantomInv(t: Tables, u: Tables, uuid: string, rid: nat)
    requires Inv(t) && !Known(t, uuid) && rid !in t.blob
    requires u == t.(blob := t.blob[rid := Row(uuid, -1, None)], phantom := t.phantom + {rid})
    ensures Inv(u) && Grows(t, u)
  {
    assert forall r :: r in t.blob ==> !Named(t, uuid, r);
  }

  lemma {:induction false} StepInv(c: Codec, t: Tables, op: Op, u: Tables)
    requires Inv(t) && Steps(c, t, op, u)
    ensures Inv(u) && Grows(t, u)
  {
    if u != t {
      match op {
        case Store(content) =>
          var uuid := StoredAs(c, t, NamingFor(t).value, content);
          var rid :| Filled(t, u, uuid, |content|, content, rid) && u.delta == t.delta;
          FilledInv(t, u, uuid, |content|, content, rid);
        case StoreUnderPolicy(content) =>
          var uuid := c.hash(NamingFor(t).value.alg, content);
          var rid :| Filled(t, u, uuid, |content|, content, rid) && u.delta == t.delta;
          FilledInv(t, u, uuid, |content|, content, rid);
        case StoreDeltaRaw(uuid, bytes, source) =>
          var rid :| Filled(t, u, uuid, c.outputSize(bytes).value, bytes, rid) && u.delta == t.delta[rid := source];
          FilledInv(t, u, uuid, c.outputSize(bytes).value, bytes, rid);
        case StorePhantom(uuid) =>
          var rid :| rid !in t.blob
            && u == t.(blob := t.blob[rid := Row(uuid, -1, None)], phantom := t.phantom + {rid});
          PhantomInv(t, u, uuid, rid);
      }
    }
  }

  /** states[0], states[1], ... follow from one another by the operations. */
  ghost predicate Run(c: Codec, states: seq<Tables>, ops: seq<Op>) {
    && |states| == |ops| + 1
    && forall i {:trigger ops[i]} :: 0 <= i < |ops| ==> Steps(c, states[i], ops[i], states[i + 1])
  }

  /**
   * Over any sequence of stores: phantoms are exactly the rows without content
   * and none is a delta, names keep their rows, and what could be read before
   * reads the same.
   */
  lemma {:induction false} RunInv(c: Codec, states: seq<Tables>, ops: seq<Op>)
    requires Run(c, states, ops) && Inv(states[0])
    ensures Inv(states[|ops|]) && Grows(states[0], states[|ops|])
    ensures forall rid :: Read(c, states[0], rid).Some? ==> Read(c, states[|ops|], rid) == Read(c, states[0], rid)
  {
    var n := |ops|;
    if n > 0 {
      forall i {:trigger ops[..n - 1][i]} | 0 <= i < n - 1
        ensures Steps(c, states[..n][i], ops[..n - 1][i], states[..n][i + 1])
      {
        assert ops[..n - 1][i] == ops[i];
      }
      RunInv(c, states[..n], ops[..n - 1]);
      assert Steps(c, states[n - 1], ops[n - 1], states[n]);
      StepInv(c, states[n - 1], ops[n - 1], states[n]);
      GrowsTransitive(states[0], states[n - 1], states[n]);
    }
    forall rid | Read(c, states[0], rid).Some? ensures Read(c, states[n], rid) == Read(c, states[0], rid) {
      ReadStays(c, states[0], states[n], rid);
    }
  }

  /** The hash functions give names of their own lengths. */
  ghost predicate GoodNames(c: Codec) {
    && (forall b {:trigger c.hash(SHA1, b)} :: |c.hash(SHA1, b)| == SHA1_LEN)
    && (forall b {:trigger c.hash(SHA3, b)} :: |c.hash(SHA3, b)| == 64)
  }

  /** A delta of a row that replays can be read back at once, as its delta applied to what that row replays to. */
  lemma {:induction false} DeltaReadsBack(
    c: Codec, t: Tables, u: Tables, uuid: string, size: nat, bytes: Bytes, source: nat, rid: nat, s: Bytes, x: Bytes)
    requires Inv(t) && !Held(t, uuid) && Filled(t, u, uuid, size, bytes, rid) && u.delta == t.delta[rid := source]
    requires Replayed(c, t, source, s, MAX_CHAIN - 1) && c.apply(s, bytes) == Some(x) && NameOf(c, uuid, x) == uuid
    ensures ReadsAs(c, u, rid, x)
  {
    var chain, contents :| && Replays(c, t, chain, contents) && |chain| <= MAX_CHAIN - 1
                           && chain[|chain| - 1] == source && contents[|chain| - 1] == s;
    FilledGrows(t, u, uuid, size, bytes, rid);
    ReplayStays(c, t, u, chain, contents);
    ReplayOne(c, u, chain, contents, rid, x);
    var longer, more := chain + [rid], contents + [x];
    assert longer[|longer| - 1] == rid && more[|longer| - 1] == x;
  }

  /** What is written in full can be read back at once. */
  lemma {:induction false} StoredReadsBack(c: Codec, t: Tables, u: Tables, naming: Naming, content: Bytes, rid: nat)
    requires Inv(t) && GoodNames(c)
    requires !Held(t, c.hash(naming.alg, content))
    requires Filled(t, u, c.hash(naming.alg, content), |content|, content, rid) && u.delta == t.delta
    ensures Read(c, u, rid) == Some(content)
  {
    var uuid := c.hash(naming.alg, content);
    OnlyRow(t, uuid, rid);
    assert Loads(u, rid) && rid !in u.delta;
    assert Expansion(c, u, rid, MAX_CHAIN) == Some(content);
    assert naming.alg == SHA1 ==> uuid == c.hash(SHA1, content);
    assert naming.alg == SHA3 ==> uuid == c.hash(SHA3, content);
  }

  /** Once SHA3 names new content because the repository holds or asked for it, it always will. */
  lemma {:induction false} NamingSticks(c: Codec, t: Tables, op: Op, u: Tables)
    requires Inv(t) && Steps(c, t, op, u)
    requires NamingFor(t).Some? && NamingFor(t).value.alg == SHA3
    requires t.policy.Some? || HasSHA3(t.blob)
    ensures NamingFor(u).Some? && NamingFor(u).value.alg == SHA3 && (u.policy.Some? || HasSHA3(u.blob))
  {
    StepInv(c, t, op, u);
    SHA3Stays(t, u);
    PolicyOnlyRises(c, t, op, u);
  }

  lemma {:induction false} SHA3Stays(t: Tables, u: Tables)
    requires Grows(t, u)
    ensures HasSHA3(t.blob) ==> HasSHA3(u.blob)
  {
    if HasSHA3(t.blob) {
      var r :| r in t.blob && |t.blob[r].uuid| > SHA1_LEN;
      assert r in u.blob && |u.blob[r].uuid| > SHA1_LEN;
    }
  }

  lemma {:induction false} PolicyOnlyRises(c: Codec, t: Tables, op: Op, u: Tables)
    requires Steps(c, t, op, u)
    ensures u.policy == t.policy || (Policy(t) == Some(POLICY_AUTO) && u.policy == Some(POLICY_SHA3))
  {
  }
}
