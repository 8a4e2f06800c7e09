/** Storing artifacts into the repository's tables, and reading them back along their delta chains. */
module BlobRepository {
  import opened Basics
  import opened BlobStore

  // -------------------------------------------------------------------- delta chains

  /** Each row of the chain is a delta of the next. */
  ghost predicate Linked(delta: map<nat, nat>, chain: seq<nat>) {
    forall i {:trigger chain[i]} :: 0 <= i < |chain| - 1 ==> chain[i] in delta && delta[chain[i]] == chain[i + 1]
  }

  /** The whole chain of its first row, down to a row that is no delta. */
  ghost predicate Complete(delta: map<nat, nat>, chain: seq<nat>) {
    chain != [] && Linked(delta, chain) && chain[|chain| - 1] !in delta
  }

  /** Rows that are all deltas of one another have no content at any depth. */
  lemma {:induction false} ClosedHasNone(c: Codec, t: Tables, S: set<nat>, rid: nat, depth: nat)
    requires rid in S && forall r :: r in S ==> r in t.delta && t.delta[r] in S
    ensures Expansion(c, t, rid, depth) == None
    decreases depth
  {
    if depth > 0 {
      ClosedHasNone(c, t, S, t.delta[rid], depth - 1);
    }
  }

  /** A chain of deltas as long as the depth never reaches its base. */
  lemma {:induction false} LongHasNone(c: Codec, t: Tables, chain: seq<nat>)
    requires chain != [] && Linked(t.delta, chain) && chain[|chain| - 1] in t.delta
    ensures Expansion(c, t, chain[0], |chain|) == None
    decreases |chain|
  {
    if |chain| > 1 {
      assert chain[0] in t.delta && t.delta[chain[0]] == chain[1];
      forall i {:trigger chain[1..][i]} | 0 <= i < |chain| - 2
        ensures chain[1..][i] in t.delta && t.delta[chain[1..][i]] == chain[1..][i + 1]
      {
        assert chain[1..][i] == chain[i + 1];
      }
      LongHasNone(c, t, chain[1..]);
    }
  }

  /** Beyond the length of the chain the depth makes no difference. */
  lemma {:induction false} DepthEnough(c: Codec, t: Tables, chain: seq<nat>, depth: nat)
    requires Complete(t.delta, chain) && depth >= |chain|
    ensures Expansion(c, t, chain[0], depth) == Expansion(c, t, chain[0], |chain|)
    decreases |chain|
  {
    if |chain| > 1 {
      assert chain[0] in t.delta && t.delta[chain[0]] == chain[1];
      forall i {:trigger chain[1..][i]} | 0 <= i < |chain| - 2
        ensures chain[1..][i] in t.delta && t.delta[chain[1..][i]] == chain[1..][i + 1]
      {
        assert chain[1..][i] == chain[i + 1];
      }
      DepthEnough(c, t, chain[1..], depth - 1);
    }
  }

  ghost function Backwards(s: seq<nat>): (r: seq<nat>)
    ensures |r| == |s| && forall i {:trigger r[i]} :: 0 <= i < |s| ==> r[i] == s[|s| - 1 - i]
  {
    seq(|s|, i requires 0 <= i < |s| => s[|s| - 1 - i])
  }

  lemma {:induction false} BackwardsRootFirst(delta: map<nat, nat>, chain: seq<nat>)
    requires Complete(delta, chain)
    ensures RootFirst(delta, Backwards(chain))
  {
    var b := Backwards(chain);
    forall i {:trigger b[i]} | 0 < i < |b| ensures b[i] in delta && delta[b[i]] == b[i - 1] {
      assert b[i] == chain[|chain| - 1 - i];
      assert b[i - 1] == chain[|chain| - i];
    }
  }

  /** Where one row of a chain has no content, none after it has. */
  lemma {:induction false} NoneUp(c: Codec, t: Tables, chain: seq<nat>, i: nat, j: nat)
    requires RootFirst(t.delta, chain) && i <= j < |chain| && Expansion(c, t, chain[i], i + 1) == None
    ensures Expansion(c, t, chain[j], j + 1) == None
    decreases j
  {
    if i < j {
      NoneUp(c, t, chain, i, j - 1);
      assert chain[j] in t.delta && t.delta[chain[j]] == chain[j - 1];
    }
  }

  lemma {:induction false} SameNames(t: Tables, u: Tables, uuid: string)
    requires t.blob == u.blob
    ensures Known(t, uuid) <==> Known(u, uuid)
    ensures forall rid :: Named(t, uuid, rid) <==> Named(u, uuid, rid)
  {
    if Known(t, uuid) {
      var rid :| Named(t, uuid, rid);
      assert Named(u, uuid, rid);
    }
    if Known(u, uuid) {
      var rid :| Named(u, uuid, rid);
      assert Named(t, uuid, rid);
    }
  }

  // --------------------------------------------------------------------- the repository

  class Repository {
    const codec: Codec
    var blob: map<nat, Row>
    var phantom: set<nat>
    var delta: map<nat, nat>
    var unclustered: set<nat>
    var policy: Option<int>

    ghost function State(): Tables
      reads this
    {
      Tables(blob, phantom, delta, unclustered, policy)
    }

    /** The row under a name, phantom or not. */
    method Exists(uuid: string) returns (found: bool, rid: nat)
      requires Inv(State())
      ensures found <==> Known(State(), uuid)
      ensures found ==> Named(State(), uuid, rid)
    {
      rid := 0;
      if r :| r in blob && blob[r].uuid == uuid {
        assert Named(State(), uuid, r);
        return true, r;
      }
      found := false;
    }

    /** The row holding content under a name, if one does. */
    method FindHeld(uuid: string) returns (found: bool, rid: nat)
      requires Inv(State())
      ensures found <==> Held(State(), uuid)
      ensures found ==> Named(State(), uuid, rid) && Real(State(), rid)
      ensures Known(State(), uuid) && !found ==> Named(State(), uuid, rid)
    {
      found, rid := Exists(uuid);
      if found && blob[rid].size == -1 {
        found := false;
      }
    }

    method ReadPolicy() returns (p: Option<int>)
      ensures p == Policy(State())
    {
      if policy.Some? {
        return if POLICY_SHA1 <= policy.value <= POLICY_SHUN_SHA1 then policy else None;
      }
      var sha3 := exists r :: r in blob && |blob[r].uuid| > SHA1_LEN;
      var sha1 := exists r :: r in blob && |blob[r].uuid| == SHA1_LEN;
      p := Some(if sha3 || !sha1 then POLICY_SHA3 else POLICY_AUTO);
    }

    method ReadNaming() returns (n: Option<Naming>)
      ensures n == NamingFor(State())
    {
      var p := ReadPolicy();
      if p == None {
        return None;
      }
      var sha3 := exists r :: r in blob && |blob[r].uuid| > SHA1_LEN;
      n := Some(Naming(
        if p.value >= POLICY_SHA3 || (p.value == POLICY_AUTO && policy.Some? && sha3) then SHA3 else SHA1,
        p.value < POLICY_SHA3_ONLY));
    }

    /** A row id no row has. */
    method FreshRid() returns (rid: nat)
      ensures rid !in blob && rid > 0
    {
      rid := 1;
      var rest := blob.Keys;
      while rest != {}
        invariant rest <= blob.Keys && rid > 0
        invariant forall r :: r in blob && r !in rest ==> r < rid
        decreases |rest|
      {
        var r :| r in rest;
        rest := rest - {r};
        if r >= rid {
          rid := r + 1;
        }
      }
    }

    /** A SHA3 name about to enter an auto repository settles its policy. */
    method Promote(uuid: string)
      modifies this`policy
      ensures policy == Promoted(old(State()), uuid)
    {
      if |uuid| > SHA1_LEN {
        var p := ReadPolicy();
        if p == Some(POLICY_AUTO) {
          policy := Some(POLICY_SHA3);
        }
      }
    }

    /** The bytes under the name: in its phantom's row, or in a new one. */
    method WriteRow(uuid: string, size: nat, bytes: Bytes) returns (rid: nat)
      requires Inv(State()) && !Held(State(), uuid) && (|uuid| > SHA1_LEN ==> Policy(State()).Some?)
      modifies this
      ensures Filled(old(State()), State().(unclustered := unclustered + {rid}), uuid, size, bytes, rid)
      ensures delta == old(delta) && unclustered == old(unclustered)
    {
      Promote(uuid);
      var found;
      found, rid := Exists(uuid);
      SameNames(old(State()), State(), uuid);
      if found {
        blob := blob[rid := Row(uuid, size, Some(bytes))];
        phantom := phantom - {rid};
      } else {
        rid := FreshRid();
        blob := blob[rid := Row(uuid, size, Some(bytes))];
      }
    }

    /** Stored under its name, unless it is held under it already, or under the other hash's name if that may stand. */
    method Store(content: Bytes) returns (r: Option<(nat, string)>)
      requires Inv(State())
      modifies this
      ensures Inv(State()) && Steps(codec, old(State()), Op.Store(content), State())
      ensures r == None <==> NamingFor(old(State())) == None
      ensures r.Some? ==> r.value.1 == StoredAs(codec, old(State()), NamingFor(old(State())).value, content)
      ensures r.Some? ==>
                var naming := NamingFor(old(State())).value;
                var primary, legacy := codec.hash(naming.alg, content), codec.hash(Other(naming.alg), content);
                if Held(old(State()), primary) || !naming.reuseLegacy || !Held(old(State()), legacy)
                then r.value.1 == primary else r.value.1 == legacy && State() == old(State())
      ensures r.Some? ==> Named(State(), r.value.1, r.value.0) && Real(State(), r.value.0)
      ensures r.Some? && State() != old(State()) && GoodNames(codec) ==>
                Read(codec, State(), r.value.0) == Some(content)
    {
      var naming := ReadNaming();
      if naming == None {
        return None;
      }
      var uuid := codec.hash(naming.value.alg, content);
      var found, rid := FindHeld(uuid);
      if found {
        return Some((rid, uuid));
      }
      if naming.value.reuseLegacy {
        var legacy := codec.hash(Other(naming.value.alg), content);
        found, rid := FindHeld(legacy);
        if found {
          return Some((rid, legacy));
        }
      }
      rid := WriteFull(uuid, content);
      if GoodNames(codec) {
        StoredReadsBack(codec, old(State()), State(), naming.value, content, rid);
      }
      r := Some((rid, uuid));
    }

    method WriteFull(uuid: string, content: Bytes) returns (rid: nat)
      requires Inv(State()) && !Held(State(), uuid) && Policy(State()).Some?
      modifies this
      ensures Inv(State()) && Filled(old(State()), State(), uuid, |content|, content, rid) && delta == old(delta)
      ensures Named(State(), uuid, rid) && Real(State(), rid)
    {
      rid := WriteRow(uuid, |content|, content);
      unclustered := unclustered + {rid};
      FilledInv(old(State()), State(), uuid, |content|, content, rid);
    }

    method StoreUnderPolicy(content: Bytes) returns (r: Option<(nat, string)>, filled: bool)
      requires Inv(State())
      modifies this
      ensures Inv(State()) && Steps(codec, old(State()), Op.StoreUnderPolicy(content), State())
      ensures r == None <==> NamingFor(old(State())) == None
      ensures r.Some? ==> r.value.1 == codec.hash(NamingFor(old(State())).value.alg, content)
      ensures r.Some? ==> Named(State(), r.value.1, r.value.0) && Real(State(), r.value.0)
      ensures r.Some? ==> (filled <==> !Held(old(State()), r.value.1) && Known(old(State()), r.value.1))
      ensures r.Some? && State() != old(State()) && GoodNames(codec) ==>
                Read(codec, State(), r.value.0) == Some(content)
    {
      filled := false;
      var naming := ReadNaming();
      if naming == None {
        return None, false;
      }
      var uuid := codec.hash(naming.value.alg, content);
      var found, rid := Exists(uuid);
      if found {
        if blob[rid].size != -1 {
          return Some((rid, uuid)), false;
        }
        filled := true;
      }
      rid := WriteFull(uuid, content);
      if GoodNames(codec) {
        StoredReadsBack(codec, old(State()), State(), naming.value, content, rid);
      }
      r := Some((rid, uuid));
    }

    /** A delta kept as received, whether or not what it is a delta of has been. */
    method StoreDeltaRaw(uuid: string, bytes: Bytes, source: nat) returns (r: Option<nat>)
      requires Inv(State())
      modifies this
      ensures Inv(State()) && Steps(codec, old(State()), Op.StoreDeltaRaw(uuid, bytes, source), State())
      ensures r.Some? ==> Named(State(), uuid, r.value) && Real(State(), r.value)
      ensures r == None ==> !Held(old(State()), uuid) && State() == old(State())
      ensures r.Some? && State() != old(State()) ==> r.value in delta && delta[r.value] == source
      ensures r.Some? && !Held(old(State()), uuid) ==>
                forall s, x :: Replayed(codec, old(State()), source, s, MAX_CHAIN - 1)
                               && codec.apply(s, bytes) == Some(x) && NameOf(codec, uuid, x) == uuid ==>
                  ReadsAs(codec, State(), r.value, x)
    {
      var found, rid := FindHeld(uuid);
      if found {
        return Some(rid);
      }
      var size := codec.outputSize(bytes);
      var p := ReadPolicy();
      if size == None || (|uuid| > SHA1_LEN && p == None) {
        return None;
      }
      rid := WriteRow(uuid, size.value, bytes);
      delta := delta[rid := source];
      unclustered := unclustered + {rid};
      assert Filled(old(State()), State(), uuid, size.value, bytes, rid)
             && State().delta == old(State()).delta[rid := source];
      FilledInv(old(State()), State(), uuid, size.value, bytes, rid);
      forall s, x | Replayed(codec, old(State()), source, s, MAX_CHAIN - 1)
                    && codec.apply(s, bytes) == Some(x) && NameOf(codec, uuid, x) == uuid
        ensures ReadsAs(codec, State(), rid, x)
      {
        DeltaReadsBack(codec, old(State()), State(), uuid, size.value, bytes, source, rid, s, x);
      }
      r := Some(rid);
    }

    /** A row for a name whose content has not come. */
    method StorePhantom(uuid: string) returns (rid: nat)
      requires Inv(State())
      modifies this
      ensures Inv(State()) && Steps(codec, old(State()), Op.StorePhantom(uuid), State())
      ensures Named(State(), uuid, rid)
      ensures Known(old(State()), uuid) ==> Named(old(State()), uuid, rid)
      ensures !Known(old(State()), uuid) ==> rid in phantom
    {
      var found;
      found, rid := Exists(uuid);
      if found {
        return;
      }
      rid := FreshRid();
      blob := blob[rid := Row(uuid, -1, None)];
      phantom := phantom + {rid};
      PhantomInv(old(State()), State(), uuid, rid);
    }

    // ------------------------------------------------------------------------ reading

    /** The delta chain of a row, root first; none where it never ends or is too long. */
    method WalkDeltaChain(rid: nat) returns (r: Option<seq<nat>>)
      ensures r == None ==> Expansion(codec, State(), rid, MAX_CHAIN) == None
      ensures r == None ==> forall x :: !Replayed(codec, State(), rid, x, MAX_CHAIN)
      ensures r.Some? ==> RootFirst(delta, r.value) && |r.value| <= MAX_CHAIN && r.value[|r.value| - 1] == rid
      ensures r.Some? ==> Expansion(codec, State(), rid, MAX_CHAIN) == Expansion(codec, State(), rid, |r.value|)
    {
      var chain: seq<nat>, seen: set<nat>, current := [rid], {rid}, rid;
      while current in delta
        invariant 1 <= |chain| <= MAX_CHAIN && chain[0] == rid && chain[|chain| - 1] == current
        invariant Linked(delta, chain)
        invariant |seen| == |chain| && forall x :: x in seen <==> x in chain
        decreases MAX_CHAIN - |chain|
      {
        if |chain| >= MAX_CHAIN {
          LongHasNone(codec, State(), chain);
          ExpansionExactly(codec, State(), rid, MAX_CHAIN);
          return None;
        }
        current := delta[current];
        if current in seen {
          CycleCloses(delta, chain, seen, current);
          ClosedHasNone(codec, State(), seen, rid, MAX_CHAIN);
          ExpansionExactly(codec, State(), rid, MAX_CHAIN);
          return None;
        }
        LinkMore(delta, chain, current);
        chain := chain + [current];
        seen := seen + {current};
      }
      DepthEnough(codec, State(), chain, MAX_CHAIN);
      BackwardsRootFirst(delta, chain);
      var reversed := Reverse(chain);
      r := Some(reversed);
    }

    /** A read replays the deltas from the root, and refuses content that is not its name's. */
    method Expand(rid: nat) returns (r: Option<Bytes>)
      ensures r == Read(codec, State(), rid)
      ensures forall x :: r == Some(x) <==> ReadsAs(codec, State(), rid, x)
    {
      ReadExactly(codec, State(), rid);
      var walked := WalkDeltaChain(rid);
      if walked == None {
        return None;
      }
      var chain := walked.value;
      if !(chain[0] in blob && blob[chain[0]].size != -1 && blob[chain[0]].content.Some?) {
        NoneUp(codec, State(), chain, 0, |chain| - 1);
        return None;
      }
      var content := blob[chain[0]].content.value;
      for i := 1 to |chain|
        invariant Expansion(codec, State(), chain[i - 1], i) == Some(content)
      {
        assert chain[i] in delta && delta[chain[i]] == chain[i - 1];
        var next: Option<Bytes> := None;
        if chain[i] in blob && blob[chain[i]].size != -1 && blob[chain[i]].content.Some? {
          next := codec.apply(content, blob[chain[i]].content.value);
        }
        assert Expansion(codec, State(), chain[i], i + 1) == next;
        if next == None {
          NoneUp(codec, State(), chain, i, |chain| - 1);
          return None;
        }
        content := next.value;
      }
      var uuid := blob[rid].uuid;
      r := if codec.hash(AlgOf(uuid), content) == uuid then Some(content) else None;
    }
  }

  lemma {:induction false} LinkMore(delta: map<nat, nat>, chain: seq<nat>, next: nat)
    requires Linked(delta, chain) && chain != [] && chain[|chain| - 1] in delta && delta[chain[|chain| - 1]] == next
    ensures Linked(delta, chain + [next])
  {
  }

  /** A chain that comes back to one of its rows never leaves them. */
  lemma {:induction false} CycleCloses(delta: map<nat, nat>, chain: seq<nat>, seen: set<nat>, next: nat)
    requires Linked(delta, chain) && chain != [] && (forall x :: x in seen <==> x in chain)
    requires chain[|chain| - 1] in delta && delta[chain[|chain| - 1]] == next && next in seen
    ensures forall r :: r in seen ==> r in delta && delta[r] in seen
  {
    forall r | r in seen ensures r in delta && delta[r] in seen {
      var i :| 0 <= i < |chain| && chain[i] == r;
      assert i < |chain| - 1 ==> chain[i + 1] in chain;
    }
  }

  method Reverse(s: seq<nat>) returns (r: seq<nat>)
    ensures r == Backwards(s)
  {
    r := s;
    var i, j := 0, |s| - 1;
    while i < j
      invariant 0 <= i && i + j == |s| - 1 && |r| == |s| && -1 <= j && i <= j + 1
      invariant forall k {:trigger r[k]} :: 0 <= k < i || j < k < |s| ==> r[k] == s[|s| - 1 - k]
      invariant forall k {:trigger r[k]} :: i <= k <= j ==> r[k] == s[k]
    {
      r := r[i := r[j]][j := r[i]];
      i, j := i + 1, j - 1;
    }
  }
}
