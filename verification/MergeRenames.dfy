/** The renames a merge brings into a checkout, carried out together on rows and on files. */
module MergeRenames {
  import opened Basics
  import opened SparseRecord
  import opened FileTable

  /** A row the merge renames, from its name to another. */
  datatype Rename = Rename(id: nat, from: string, to: string, exe: bool)

  const SUFFIX: string := " (overwritten by rename)"

  /** Where a row in a rename's way goes. */
  function Aside(name: string): string {
    name + SUFFIX
  }

  lemma {:induction false} AsideApart(a: string, b: string)
    ensures Aside(a) != a
    ensures Aside(a) == Aside(b) ==> a == b
  {
    assert |Aside(a)| == |a| + |SUFFIX|;
    if Aside(a) == Aside(b) {
      assert |a| == |b|;
      assert a == Aside(a)[..|a|] == Aside(b)[..|b|] == b;
    }
  }

  /** Different rows, standing where they are renamed from, to different names. */
  ghost predicate Proper(v0: map<nat, Slot>, rs: seq<Rename>) {
    && (forall j, k :: 0 <= j < k < |rs| ==> rs[j].id != rs[k].id)
    && (forall k {:trigger rs[k]} :: 0 <= k < |rs| ==> rs[k].id in v0 && v0[rs[k].id].place == At(rs[k].from))
    && (forall id :: id in v0 ==> v0[id].place.At?)
    && UniquePlaces(v0)
  }

  ghost predicate TargetsDiffer(rs: seq<Rename>) {
    forall j, k :: 0 <= j < k < |rs| ==> rs[j].to != rs[k].to
  }

  /** None of the first n renames after k goes to the same name. */
  ghost predicate Last(rs: seq<Rename>, n: nat, k: nat)
    requires k < n <= |rs|
  {
    forall j :: k < j < n ==> rs[j].to != rs[k].to
  }

  ghost predicate IsRenamed(rs: seq<Rename>, id: nat) {
    exists k :: 0 <= k < |rs| && rs[k].id == id
  }

  /** Some rename of the first n goes to name. */
  ghost predicate Target(rs: seq<Rename>, n: nat, name: string) {
    exists k :: 0 <= k < n && k < |rs| && rs[k].to == name
  }

  /** A row the merge does not rename has the name. */
  ghost predicate Other(v0: map<nat, Slot>, rs: seq<Rename>, name: string) {
    exists id :: id in v0 && !IsRenamed(rs, id) && v0[id].place == At(name)
  }

  /** When rename i comes to its target a row is there: one not renamed, one an earlier
      rename brought, or one an earlier rename put aside to it. */
  ghost predicate Held(v0: map<nat, Slot>, rs: seq<Rename>, i: nat)
    requires i < |rs|
    decreases i
  {
    || Other(v0, rs, rs[i].to)
    || Target(rs, i, rs[i].to)
    || exists j :: 0 <= j < i && rs[i].to == Aside(rs[j].to) && Held(v0, rs, j)
  }

  /** Some rename of the first n put a row aside to name. */
  ghost predicate PutAside(v0: map<nat, Slot>, rs: seq<Rename>, n: nat, name: string)
    requires n <= |rs|
  {
    exists j :: 0 <= j < n && name == Aside(rs[j].to) && Held(v0, rs, j)
  }

  /** A row has the name when the first n renames have reached their targets. */
  ghost predicate Taken(v0: map<nat, Slot>, rs: seq<Rename>, n: nat, name: string)
    requires n <= |rs|
  {
    Other(v0, rs, name) || Target(rs, n, name) || PutAside(v0, rs, n, name)
  }

  /** The row at rename i's target has to move aside, and cannot. */
  ghost predicate Clash(v0: map<nat, Slot>, rs: seq<Rename>, i: nat)
    requires i < |rs|
  {
    Held(v0, rs, i) && Taken(v0, rs, i, Aside(rs[i].to))
  }

  ghost predicate NoClash(v0: map<nat, Slot>, rs: seq<Rename>, n: nat)
    requires n <= |rs|
  {
    forall i :: 0 <= i < n ==> !Clash(v0, rs, i)
  }

  // ---------------------------------------------------------------------- first pass

  /** The row as renamed: it keeps the name it first had. */
  function Moved(s: Slot): Row {
    if s.row.origname == None && s.place.At? then s.row.(origname := Some(s.place.name)) else s.row
  }

  /** The first n renamed rows are set aside under placeholders. */
  ghost predicate ParkedTo(v0: map<nat, Slot>, v: map<nat, Slot>, rs: seq<Rename>, n: nat) {
    && v.Keys == v0.Keys
    && (forall k {:trigger rs[k]} :: 0 <= k < |rs| && rs[k].id in v0 ==>
          rs[k].id in v && v[rs[k].id] == if k < n then Slot(Parked(rs[k].id), Moved(v0[rs[k].id])) else v0[rs[k].id])
    && (forall id {:trigger v[id]} :: id in v0 && !IsRenamed(rs, id) ==> id in v && v[id] == v0[id])
  }

  lemma {:induction false} ParkedMore(v0: map<nat, Slot>, v: map<nat, Slot>, rs: seq<Rename>, n: nat)
    requires Proper(v0, rs) && ParkedTo(v0, v, rs, n) && n < |rs|
    ensures rs[n].id in v && v[rs[n].id] == v0[rs[n].id]
    ensures forall j :: j in v && j != rs[n].id ==> v[j].place != Parked(rs[n].id)
    ensures ParkedTo(v0, v[rs[n].id := Slot(Parked(rs[n].id), Moved(v0[rs[n].id]))], rs, n + 1)
  {
    forall j | j in v && j != rs[n].id ensures v[j].place != Parked(rs[n].id) {
      if k :| 0 <= k < |rs| && rs[k].id == j {
        assert v[rs[k].id] == if k < n then Slot(Parked(rs[k].id), Moved(v0[rs[k].id])) else v0[rs[k].id];
      } else {
        assert !IsRenamed(rs, j);
      }
    }
    assert IsRenamed(rs, rs[n].id);
  }

  method Park(v0: map<nat, Slot>, rs: seq<Rename>) returns (v: map<nat, Slot>)
    requires Proper(v0, rs)
    ensures UniquePlaces(v) && ParkedTo(v0, v, rs, |rs|)
  {
    v := v0;
    for i := 0 to |rs|
      invariant UniquePlaces(v) && ParkedTo(v0, v, rs, i)
    {
      ParkedMore(v0, v, rs, i);
      var ok;
      ok, v := Update(v, rs[i].id, Slot(Parked(rs[i].id), Moved(v[rs[i].id])));
    }
  }

  // --------------------------------------------------------------------- second pass

  ghost predicate Occupied(v: map<nat, Slot>, name: string) {
    exists id :: id in v && v[id].place == At(name)
  }

  /** A row as it was, but for its name and what it remembers as its earlier name. */
  ghost predicate SameFile(a: Slot, b: Slot) {
    a.row.(origname := None) == b.row.(origname := None)
  }

  /** Where renamed row k is after n renames: at its target, unless a later rename to the
      same name has put it aside, or still waiting. */
  ghost predicate RenamedAt(v0: map<nat, Slot>, v: map<nat, Slot>, rs: seq<Rename>, n: nat, k: nat)
    requires k < |rs| && n <= |rs| && rs[k].id in v0
  {
    && rs[k].id in v
    && if k >= n then v[rs[k].id] == Slot(Parked(rs[k].id), Moved(v0[rs[k].id]))
       else if Last(rs, n, k) then v[rs[k].id] == Slot(At(rs[k].to), Moved(v0[rs[k].id]))
       else v[rs[k].id].place.At? && !Target(rs, n, v[rs[k].id].place.name) && SameFile(v0[rs[k].id], v[rs[k].id])
  }

  /** Where a row the merge does not rename is: where it was, unless that is a target. */
  ghost predicate OtherAt(v0: map<nat, Slot>, v: map<nat, Slot>, rs: seq<Rename>, n: nat, id: nat)
    requires n <= |rs| && id in v
  {
    && id in v0 && v[id].place.At? && !Target(rs, n, v[id].place.name) && SameFile(v0[id], v[id])
    && v0[id].place.At? && (!Target(rs, |rs|, v0[id].place.name) ==> v[id] == v0[id])
  }

  /** The first n renames have reached their targets. */
  ghost predicate LandedTo(v0: map<nat, Slot>, v: map<nat, Slot>, rs: seq<Rename>, n: nat)
    requires n <= |rs|
  {
    && v.Keys == v0.Keys
    && (forall k {:trigger rs[k]} :: 0 <= k < |rs| && rs[k].id in v0 ==> RenamedAt(v0, v, rs, n, k))
    && (forall id {:trigger v[id]} :: id in v && !IsRenamed(rs, id) ==> OtherAt(v0, v, rs, n, id))
    && (forall name {:trigger Occupied(v, name)} :: Occupied(v, name) <==> Taken(v0, rs, n, name))
  }

  /** A row is at the target, or at its aside name, exactly when the renames and rows say so. */
  lemma {:induction false} HeldIsOccupied(v0: map<nat, Slot>, v: map<nat, Slot>, rs: seq<Rename>, i: nat)
    requires i < |rs| && LandedTo(v0, v, rs, i)
    ensures Occupied(v, rs[i].to) <==> Held(v0, rs, i)
    ensures Occupied(v, Aside(rs[i].to)) <==> Taken(v0, rs, i, Aside(rs[i].to))
  {
    assert Occupied(v, rs[i].to) <==> Taken(v0, rs, i, rs[i].to);
  }

  /** The table with rename i at its target and the row that was there, if any, aside. */
  ghost predicate Steps(v: map<nat, Slot>, v': map<nat, Slot>, rs: seq<Rename>, i: nat)
    requires i < |rs|
  {
    && v'.Keys == v.Keys && rs[i].id in v
    && v'[rs[i].id] == Slot(At(rs[i].to), v[rs[i].id].row)
    && (forall id {:trigger v'[id]} :: id in v && id != rs[i].id ==>
          v'[id] == if v[id].place == At(rs[i].to)
            then Slot(At(Aside(rs[i].to)), v[id].row.(origname := Some(rs[i].to))) else v[id])
  }

  lemma {:induction false} StepOccupies(v: map<nat, Slot>, v': map<nat, Slot>, rs: seq<Rename>, i: nat, name: string)
    requires i < |rs| && Steps(v, v', rs, i) && v[rs[i].id].place == Parked(rs[i].id)
    ensures Occupied(v', name) <==>
              name == rs[i].to || (name == Aside(rs[i].to) && Occupied(v, rs[i].to)) || Occupied(v, name)
  {
    AsideApart(rs[i].to, rs[i].to);
    if Occupied(v', name) {
      var id :| id in v' && v'[id].place == At(name);
      assert id == rs[i].id
             || v'[id] == if v[id].place == At(rs[i].to)
             then Slot(At(Aside(rs[i].to)), v[id].row.(origname := Some(rs[i].to))) else v[id];
    }
    if name == rs[i].to {
      assert rs[i].id in v' && v'[rs[i].id].place == At(name);
    } else {
      if Occupied(v, name) {
        var id :| id in v && v[id].place == At(name);
        assert v'[id].place == At(name);
      }
      if name == Aside(rs[i].to) && Occupied(v, rs[i].to) {
        var id :| id in v && v[id].place == At(rs[i].to);
        assert v'[id].place == At(name);
      }
    }
  }

  lemma {:induction false} MorePutAside(v0: map<nat, Slot>, rs: seq<Rename>, i: nat, name: string)
    requires i < |rs|
    ensures PutAside(v0, rs, i + 1, name) <==> PutAside(v0, rs, i, name) || (name == Aside(rs[i].to) && Held(v0, rs, i))
    ensures Target(rs, i + 1, name) <==> Target(rs, i, name) || name == rs[i].to
  {
  }

  lemma {:induction false} StepOccupation(
    v0: map<nat, Slot>, v: map<nat, Slot>, v': map<nat, Slot>, rs: seq<Rename>, i: nat, name: string)
    requires Proper(v0, rs) && i < |rs| && LandedTo(v0, v, rs, i) && Steps(v, v', rs, i)
    ensures Occupied(v', name) <==> Taken(v0, rs, i + 1, name)
  {
    assert RenamedAt(v0, v, rs, i, i);
    assert v[rs[i].id].place == Parked(rs[i].id);
    StepOccupies(v, v', rs, i, name);
    MorePutAside(v0, rs, i, name);
    HeldIsOccupied(v0, v, rs, i);
    assert Occupied(v, name) <==> Taken(v0, rs, i, name);
  }

  lemma {:induction false} StepRenamed(
    v0: map<nat, Slot>, v: map<nat, Slot>, v': map<nat, Slot>, rs: seq<Rename>, i: nat, k: nat)
    requires Proper(v0, rs) && i < |rs| && LandedTo(v0, v, rs, i) && Steps(v, v', rs, i) && k < |rs|
    requires !Target(rs, i, Aside(rs[i].to)) || !Occupied(v, rs[i].to)
    ensures RenamedAt(v0, v', rs, i + 1, k)
  {
    assert RenamedAt(v0, v, rs, i, k);
    if k == i {
    } else if k > i {
      assert rs[i].id != rs[k].id;
    } else {
      assert rs[k].id != rs[i].id;
      AsideApart(rs[i].to, rs[i].to);
      EarlierRenamed(v0, v, v', rs, i, k);
    }
  }

  /** A row renamed before stays, or is put aside by the next rename to its target. */
  lemma {:induction false} EarlierRenamed(
    v0: map<nat, Slot>, v: map<nat, Slot>, v': map<nat, Slot>, rs: seq<Rename>, i: nat, k: nat)
    requires k < i < |rs| && rs[k].id != rs[i].id && rs[k].id in v0 && Steps(v, v', rs, i) && RenamedAt(v0, v, rs, i, k)
    requires !Target(rs, i, Aside(rs[i].to)) || !Occupied(v, rs[i].to)
    requires Aside(rs[i].to) != rs[i].to
    ensures RenamedAt(v0, v', rs, i + 1, k)
  {
    var id := rs[k].id;
    assert v'[id] == if v[id].place == At(rs[i].to)
           then Slot(At(Aside(rs[i].to)), v[id].row.(origname := Some(rs[i].to))) else v[id];
    assert Last(rs, i + 1, k) <==> Last(rs, i, k) && rs[i].to != rs[k].to;
    if v[id].place == At(rs[i].to) {
      assert Occupied(v, rs[i].to);
      if Last(rs, i, k) {
        assert rs[k].to == rs[i].to;
      }
      MorePutAside(v0, rs, i, Aside(rs[i].to));
    } else {
      MorePutAside(v0, rs, i, v'[id].place.name);
    }
  }

  lemma {:induction false} StepOthers(
    v0: map<nat, Slot>, v: map<nat, Slot>, v': map<nat, Slot>, rs: seq<Rename>, i: nat, id: nat)
    requires Proper(v0, rs) && i < |rs| && LandedTo(v0, v, rs, i) && Steps(v, v', rs, i)
    requires !Target(rs, i, Aside(rs[i].to)) || !Occupied(v, rs[i].to)
    requires id in v' && !IsRenamed(rs, id)
    ensures OtherAt(v0, v', rs, i + 1, id)
  {
    assert IsRenamed(rs, rs[i].id);
    assert id in v && OtherAt(v0, v, rs, i, id);
    AsideApart(rs[i].to, rs[i].to);
    MorePutAside(v0, rs, i, v'[id].place.name);
    if v[id].place == At(rs[i].to) {
      assert Occupied(v, rs[i].to);
      assert Target(rs, |rs|, rs[i].to);
    }
  }

  lemma {:induction false} StepLands(v0: map<nat, Slot>, v: map<nat, Slot>, v': map<nat, Slot>, rs: seq<Rename>, i: nat)
    requires Proper(v0, rs) && i < |rs| && LandedTo(v0, v, rs, i) && Steps(v, v', rs, i)
    requires !Target(rs, i, Aside(rs[i].to)) || !Occupied(v, rs[i].to)
    ensures LandedTo(v0, v', rs, i + 1)
  {
    forall k {:trigger rs[k]} | 0 <= k < |rs| ensures RenamedAt(v0, v', rs, i + 1, k) {
      StepRenamed(v0, v, v', rs, i, k);
    }
    forall id {:trigger v'[id]} | id in v' && !IsRenamed(rs, id) ensures OtherAt(v0, v', rs, i + 1, id) {
      StepOthers(v0, v, v', rs, i, id);
    }
    forall name {:trigger Occupied(v', name)} ensures Occupied(v', name) <==> Taken(v0, rs, i + 1, name) {
      StepOccupation(v0, v, v', rs, i, name);
    }
  }

  /** One rename takes its target, the row there going aside; refused exactly on a clash. */
  method Land(
    ghost v0: map<nat, Slot>, v: map<nat, Slot>, rs: seq<Rename>, i: nat) returns (ok: bool, v': map<nat, Slot>)
    requires Proper(v0, rs) && i < |rs| && LandedTo(v0, v, rs, i) && UniquePlaces(v)
    ensures ok <==> !Clash(v0, rs, i)
    ensures ok ==> UniquePlaces(v') && LandedTo(v0, v', rs, i + 1)
  {
    var r := rs[i];
    HeldIsOccupied(v0, v, rs, i);
    assert RenamedAt(v0, v, rs, i, i);
    ok, v' := TakeName(v, r.id, r.to);
    if ok {
      assert Steps(v, v', rs, i);
      StepLands(v0, v, v', rs, i);
    }
  }

  /** Row id takes a name, the row that has it going aside; refused exactly when that row's aside name is taken too. */
  method TakeName(v: map<nat, Slot>, id: nat, to: string) returns (ok: bool, v': map<nat, Slot>)
    requires id in v && v[id].place.Parked? && UniquePlaces(v)
    ensures ok <==> !(Occupied(v, to) && Occupied(v, Aside(to)))
    ensures ok ==> UniquePlaces(v') && v'.Keys == v.Keys && v'[id] == Slot(At(to), v[id].row)
    ensures ok ==> forall j {:trigger v'[j]} :: j in v && j != id ==>
              v'[j] == if v[j].place == At(to) then Slot(At(Aside(to)), v[j].row.(origname := Some(to))) else v[j]
  {
    AsideApart(to, to);
    var cleared := v;
    if h :| h in v && v[h].place == At(to) {
      ok, cleared := Update(v, h, Slot(At(Aside(to)), v[h].row.(origname := Some(to))));
      if !ok {
        return false, v;
      }
    }
    ok, v' := Update(cleared, id, Slot(At(to), cleared[id].row));
  }

  lemma {:induction false} ParkedIsStart(v0: map<nat, Slot>, v: map<nat, Slot>, rs: seq<Rename>)
    requires Proper(v0, rs) && ParkedTo(v0, v, rs, |rs|)
    ensures LandedTo(v0, v, rs, 0)
  {
    assert forall k {:trigger rs[k]} :: 0 <= k < |rs| ==> v[rs[k].id].place == Parked(rs[k].id);
    forall name ensures Occupied(v, name) <==> Other(v0, rs, name) {
      if Occupied(v, name) {
        var id :| id in v && v[id].place == At(name);
        assert !IsRenamed(rs, id) && v[id] == v0[id];
      }
      if Other(v0, rs, name) {
        var id :| id in v0 && !IsRenamed(rs, id) && v0[id].place == At(name);
        assert v[id] == v0[id];
      }
    }
  }

  /**
   * The renames act on the rows as one substitution, whatever swaps and chains
   * they make: each renamed row is at its target, the later of two with one target,
   * rows elsewhere are as they were, names stay unique. They are refused exactly when a
   * row cannot be put aside.
   */
  method RenameRows(v0: map<nat, Slot>, rs: seq<Rename>) returns (ok: bool, v: map<nat, Slot>)
    requires Proper(v0, rs)
    ensures ok <==> NoClash(v0, rs, |rs|)
    ensures !ok ==> v == v0
    ensures ok ==> UniquePlaces(v) && LandedTo(v0, v, rs, |rs|)
  {
    v := Park(v0, rs);
    ParkedIsStart(v0, v, rs);
    for i := 0 to |rs|
      invariant UniquePlaces(v) && LandedTo(v0, v, rs, i) && NoClash(v0, rs, i)
    {
      ok, v := Land(v0, v, rs, i);
      if !ok {
        return false, v0;
      }
    }
    ok := true;
  }

  /** A removed file in the way whose aside name a tracked file has stops the merge. */
  lemma {:induction false} AsideCanBeTaken(a: Row, b: Row, c: Row)
    ensures var v0 := map[1 := Slot(At("a"), a), 2 := Slot(At("b"), b.(deleted := true)), 3 := Slot(At(Aside("b")), c)];
            var rs := [Rename(1, "a", "b", false)];
            Proper(v0, rs) && Clash(v0, rs, 0)
  {
    var v0 := map[1 := Slot(At("a"), a), 2 := Slot(At("b"), b.(deleted := true)), 3 := Slot(At(Aside("b")), c)];
    var rs := [Rename(1, "a", "b", false)];
    AsideApart("b", "a");
    assert "a"[0] != "b"[0];
    assert |Aside("b")| == 1 + |SUFFIX|;
    assert !IsRenamed(rs, 2) && v0[2].place == At("b");
    assert !IsRenamed(rs, 3) && v0[3].place == At(Aside("b"));
  }

  /** With different targets every renamed row is at its own. */
  lemma {:induction false} DistinctAllLand(v0: map<nat, Slot>, v: map<nat, Slot>, rs: seq<Rename>, k: nat)
    requires Proper(v0, rs) && TargetsDiffer(rs) && LandedTo(v0, v, rs, |rs|) && k < |rs|
    ensures rs[k].id in v && v[rs[k].id].place == At(rs[k].to)
    ensures var was := v0[rs[k].id].row;
            v[rs[k].id].row == was.(origname := if was.origname == None then Some(rs[k].from) else was.origname)
  {
    assert RenamedAt(v0, v, rs, |rs|, k) && Last(rs, |rs|, k);
  }
}
