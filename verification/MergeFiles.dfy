/** What a merge's renames do to the working files, and what is checked before any is made. */
module MergeFiles {
  import opened Basics
  import opened SparseRecord
  import opened FileTable
  import opened MergeRenames

  datatype File = File(data: int, exe: bool, link: bool)

  // ------------------------------------------------------------------ moving the files

  /** A file read for its rename, as it will be written. */
  datatype Move = Move(from: string, to: string, file: File)

  function MoveOf(r: Rename, f: File): Move {
    Move(r.from, r.to, File(f.data, r.exe, f.link))
  }

  /** Rename k's file is there to move. */
  predicate Moves(d0: map<string, File>, rs: seq<Rename>, k: int) {
    0 <= k < |rs| && rs[k].from in d0
  }

  ghost predicate Arrives(d0: map<string, File>, rs: seq<Rename>, name: string) {
    exists k :: Moves(d0, rs, k) && rs[k].to == name
  }

  ghost predicate Departs(d0: map<string, File>, rs: seq<Rename>, name: string) {
    exists k :: Moves(d0, rs, k) && rs[k].from == name
  }

  /** No later file moves to the same name. */
  ghost predicate LastToMove(d0: map<string, File>, rs: seq<Rename>, k: int) {
    Moves(d0, rs, k) && forall j {:trigger Moves(d0, rs, j)} :: j > k && Moves(d0, rs, j) ==> rs[j].to != rs[k].to
  }

  /** Every file on disk is at its target with its content, all at once, the last one where
      several go to one name; names only left are free. */
  ghost predicate Substituted(d0: map<string, File>, d: map<string, File>, rs: seq<Rename>) {
    && (forall k {:trigger LastToMove(d0, rs, k)} :: LastToMove(d0, rs, k) ==>
          rs[k].to in d && d[rs[k].to] == File(d0[rs[k].from].data, rs[k].exe, d0[rs[k].from].link))
    && (forall name {:trigger name in d} :: !Arrives(d0, rs, name) ==>
          (name in d <==> name in d0 && !Departs(d0, rs, name)) && (name in d ==> d[name] == d0[name]))
  }

  /** The moves read from the first n renames, each for one of them, in order. */
  ghost predicate ReadTo(d0: map<string, File>, rs: seq<Rename>, n: nat, moves: seq<Move>, at: seq<int>) {
    && |at| == |moves|
    && (forall a, b :: 0 <= a < b < |at| ==> at[a] < at[b])
    && (forall a {:trigger moves[a]} {:trigger at[a]} :: 0 <= a < |moves| ==>
          at[a] < n && Moves(d0, rs, at[a]) && moves[a] == MoveOf(rs[at[a]], d0[rs[at[a]].from]))
    && (forall k {:trigger Moves(d0, rs, k)} :: k < n && Moves(d0, rs, k) ==> k in at)
  }

  method ReadAll(disk: map<string, File>, rs: seq<Rename>) returns (moves: seq<Move>, ghost at: seq<int>)
    ensures ReadTo(disk, rs, |rs|, moves, at)
  {
    moves, at := [], [];
    for i := 0 to |rs|
      invariant ReadTo(disk, rs, i, moves, at)
    {
      if rs[i].from in disk {
        ReadOne(disk, rs, i, moves, at);
        moves := moves + [MoveOf(rs[i], disk[rs[i].from])];
        at := at + [i];
      } else {
        assert !Moves(disk, rs, i);
      }
    }
  }

  lemma {:induction false} ReadOne(d0: map<string, File>, rs: seq<Rename>, i: nat, moves: seq<Move>, at: seq<int>)
    requires ReadTo(d0, rs, i, moves, at) && Moves(d0, rs, i)
    ensures ReadTo(d0, rs, i + 1, moves + [MoveOf(rs[i], d0[rs[i].from])], at + [i])
  {
  }

  ghost predicate LeftTo(moves: seq<Move>, n: nat, name: string) {
    exists a :: 0 <= a < n && a < |moves| && moves[a].from == name
  }

  ghost predicate ReachedTo(moves: seq<Move>, n: nat, name: string) {
    exists a :: 0 <= a < n && a < |moves| && moves[a].to == name
  }

  method RemoveAll(d0: map<string, File>, moves: seq<Move>) returns (d: map<string, File>)
    ensures forall name {:trigger name in d} :: name in d <==> name in d0 && !LeftTo(moves, |moves|, name)
    ensures forall name {:trigger d[name]} :: name in d ==> d[name] == d0[name]
  {
    d := d0;
    for i := 0 to |moves|
      invariant forall name {:trigger name in d} :: name in d <==> name in d0 && !LeftTo(moves, i, name)
      invariant forall name {:trigger d[name]} :: name in d ==> d[name] == d0[name]
    {
      d := d - {moves[i].from};
    }
  }

  /** No later of the first n moves goes to the same name. */
  ghost predicate LastMove(moves: seq<Move>, n: nat, a: nat)
    requires a < n <= |moves|
  {
    forall b :: a < b < n ==> moves[b].to != moves[a].to
  }

  /** The first n moves have been written, and nothing else. */
  ghost predicate WroteTo(d1: map<string, File>, d: map<string, File>, moves: seq<Move>, n: nat)
    requires n <= |moves|
  {
    && (forall a {:trigger moves[a]} :: 0 <= a < n && LastMove(moves, n, a) ==>
        moves[a].to in d && d[moves[a].to] == moves[a].file)
    && (forall name {:trigger name in d} :: !ReachedTo(moves, n, name) ==>
          (name in d <==> name in d1) && (name in d ==> d[name] == d1[name]))
  }

  lemma {:induction false} WroteMore(d1: map<string, File>, d: map<string, File>, moves: seq<Move>, n: nat)
    requires n < |moves| && WroteTo(d1, d, moves, n)
    ensures WroteTo(d1, d[moves[n].to := moves[n].file], moves, n + 1)
  {
    var d' := d[moves[n].to := moves[n].file];
    forall a {:trigger moves[a]} | 0 <= a < n + 1 && LastMove(moves, n + 1, a)
      ensures moves[a].to in d' && d'[moves[a].to] == moves[a].file
    {
      if a < n {
        assert LastMove(moves, n, a) && moves[a].to != moves[n].to;
      }
    }
    forall name {:trigger name in d'} | !ReachedTo(moves, n + 1, name)
      ensures (name in d' <==> name in d1) && (name in d' ==> d'[name] == d1[name])
    {
      assert !ReachedTo(moves, n, name) && name != moves[n].to;
      assert name in d <==> name in d1;
    }
  }

  method WriteAll(d1: map<string, File>, moves: seq<Move>) returns (d: map<string, File>)
    ensures WroteTo(d1, d, moves, |moves|)
  {
    d := d1;
    for i := 0 to |moves|
      invariant WroteTo(d1, d, moves, i)
    {
      WroteMore(d1, d, moves, i);
      d := d[moves[i].to := moves[i].file];
    }
  }

  lemma {:induction false} MovesNames(
    d0: map<string, File>, rs: seq<Rename>, moves: seq<Move>, at: seq<int>, name: string)
    requires ReadTo(d0, rs, |rs|, moves, at)
    ensures LeftTo(moves, |moves|, name) <==> Departs(d0, rs, name)
    ensures ReachedTo(moves, |moves|, name) <==> Arrives(d0, rs, name)
  {
    if LeftTo(moves, |moves|, name) {
      var a :| 0 <= a < |moves| && moves[a].from == name;
      assert Moves(d0, rs, at[a]);
    }
    if ReachedTo(moves, |moves|, name) {
      var a :| 0 <= a < |moves| && moves[a].to == name;
      assert Moves(d0, rs, at[a]);
    }
    if Departs(d0, rs, name) {
      var k :| Moves(d0, rs, k) && rs[k].from == name;
      var a :| 0 <= a < |at| && at[a] == k;
      assert moves[a].from == name;
    }
    if Arrives(d0, rs, name) {
      var k :| Moves(d0, rs, k) && rs[k].to == name;
      var a :| 0 <= a < |at| && at[a] == k;
      assert moves[a].to == name;
    }
  }

  /** The last file to move to a name is the last move written there. */
  lemma {:induction false} LastMoveOf(
    d0: map<string, File>, rs: seq<Rename>, moves: seq<Move>, at: seq<int>, k: int) returns (a: nat)
    requires ReadTo(d0, rs, |rs|, moves, at) && LastToMove(d0, rs, k)
    ensures a < |moves| && moves[a] == MoveOf(rs[k], d0[rs[k].from]) && LastMove(moves, |moves|, a)
  {
    assert k in at;
    a :| 0 <= a < |at| && at[a] == k;
    assert moves[a] == MoveOf(rs[at[a]], d0[rs[at[a]].from]);
    forall b | a < b < |moves| ensures moves[b].to != moves[a].to {
      assert moves[b] == MoveOf(rs[at[b]], d0[rs[at[b]].from]) && Moves(d0, rs, at[b]) && at[b] > k;
    }
  }

  /** Every file is read before any is removed, and all are removed before any is written. */
  method MoveRenamedFiles(d0: map<string, File>, rs: seq<Rename>) returns (d: map<string, File>)
    ensures Substituted(d0, d, rs)
  {
    var moves;
    ghost var at;
    moves, at := ReadAll(d0, rs);
    var d1 := RemoveAll(d0, moves);
    d := WriteAll(d1, moves);
    forall k {:trigger LastToMove(d0, rs, k)} | LastToMove(d0, rs, k)
      ensures rs[k].to in d && d[rs[k].to] == File(d0[rs[k].from].data, rs[k].exe, d0[rs[k].from].link)
    {
      var a := LastMoveOf(d0, rs, moves, at, k);
    }
    forall name {:trigger name in d} | !Arrives(d0, rs, name)
      ensures (name in d <==> name in d0 && !Departs(d0, rs, name)) && (name in d ==> d[name] == d0[name])
    {
      MovesNames(d0, rs, moves, at, name);
      assert name in d <==> name in d1;
    }
  }

  /** With different targets every file moved is at its own. */
  lemma {:induction false} DistinctAllMove(d0: map<string, File>, d: map<string, File>, rs: seq<Rename>, k: int)
    requires Substituted(d0, d, rs) && TargetsDiffer(rs) && Moves(d0, rs, k)
    ensures rs[k].to in d && d[rs[k].to] == File(d0[rs[k].from].data, rs[k].exe, d0[rs[k].from].link)
  {
    assert LastToMove(d0, rs, k);
  }

  // --------------------------------------------------------- checks before the renames

  /** One file of the merge: its row, the name it is renamed to if any, whether the merge deletes it. */
  datatype PlanStep = PlanStep(id: nat, name: string, to: Option<string>, deletes: bool, exe: bool)

  /** The merge renames or deletes the file with this name. */
  ghost predicate Vacates(plan: seq<PlanStep>, name: string) {
    exists k :: 0 <= k < |plan| && plan[k].name == name && (plan[k].to.Some? || plan[k].deletes)
  }

  /** The name is vacated, or neither tracked and kept nor on disk. */
  ghost predicate CanTake(plan: seq<PlanStep>, removed: map<string, bool>, disk: map<string, File>, name: string) {
    Vacates(plan, name) || ((name in removed ==> removed[name]) && name !in disk)
  }

  /** Renames are let through only onto names that destroy nothing. */
  method CheckMergeRenames(plan: seq<PlanStep>, removed: map<string, bool>, disk: map<string, File>) returns (ok: bool)
    ensures ok <==>
              forall k {:trigger plan[k]} :: 0 <= k < |plan| && plan[k].to.Some? ==>
              CanTake(plan, removed, disk, plan[k].to.value)
  {
    var vacated: set<string> := {};
    for i := 0 to |plan|
      invariant forall name {:trigger name in vacated} :: name in vacated <==>
        exists k :: 0 <= k < i && plan[k].name == name && (plan[k].to.Some? || plan[k].deletes)
    {
      if plan[i].to.Some? || plan[i].deletes {
        vacated := vacated + {plan[i].name};
      }
    }
    for i := 0 to |plan|
      invariant forall k {:trigger plan[k]} :: 0 <= k < i && plan[k].to.Some? ==>
                  CanTake(plan, removed, disk, plan[k].to.value)
    {
      if plan[i].to.Some? && plan[i].to.value !in vacated {
        var to := plan[i].to.value;
        assert !Vacates(plan, to);
        if (to in removed && !removed[to]) || to in disk {
          return false;
        }
      }
    }
    ok := true;
  }

  /** The renames of a plan. */
  function Renames(plan: seq<PlanStep>): seq<Rename> {
    if plan == [] then []
    else if plan[0].to.Some? then [Rename(plan[0].id, plan[0].name, plan[0].to.value, plan[0].exe)] + Renames(plan[1..])
    else Renames(plan[1..])
  }

  /** The step carries the rename. */
  predicate Yields(s: PlanStep, r: Rename) {
    s.to == Some(r.to) && s.id == r.id && s.name == r.from && s.exe == r.exe
  }

  lemma {:induction false} RenamesOf(plan: seq<PlanStep>, r: Rename)
    ensures r in Renames(plan) <==> exists k :: 0 <= k < |plan| && Yields(plan[k], r)
  {
    if plan != [] {
      RenamesOf(plan[1..], r);
      assert plan == [plan[0]] + plan[1..];
      if k :| 0 <= k < |plan| && Yields(plan[k], r) {
        assert k > 0 ==> plan[1..][k - 1] == plan[k];
      }
      if k :| 0 <= k < |plan| - 1 && Yields(plan[1..][k], r) {
        assert plan[k + 1] == plan[1..][k];
      }
    }
  }

  /** The table when the renames come: rows removed before or deleted by the merge are marked so. */
  ghost predicate Marked(v: map<nat, Slot>, plan: seq<PlanStep>, removed: map<string, bool>) {
    && UniquePlaces(v)
    && (forall id :: id in v ==> v[id].place.At? && v[id].place.name in removed)
    && (forall id :: id in v && removed[v[id].place.name] ==> v[id].row.deleted)
    && (forall k {:trigger plan[k]} :: 0 <= k < |plan| && (plan[k].to.Some? || plan[k].deletes) ==>
          plan[k].id in v && v[plan[k].id].place == At(plan[k].name) && (plan[k].deletes ==> v[plan[k].id].row.deleted))
  }

  /** Once the check has passed, a row that has to go aside for a rename is a removed one. */
  lemma {:induction false} OnlyRemovedAside(
    v: map<nat, Slot>, plan: seq<PlanStep>, removed: map<string, bool>, disk: map<string, File>, id: nat)
    requires Marked(v, plan, removed)
    requires forall k {:trigger plan[k]} :: 0 <= k < |plan| && plan[k].to.Some? ==>
               CanTake(plan, removed, disk, plan[k].to.value)
    requires id in v && !IsRenamed(Renames(plan), id) && Target(Renames(plan), |Renames(plan)|, v[id].place.name)
    ensures v[id].row.deleted
  {
    var rs, name := Renames(plan), v[id].place.name;
    var i :| 0 <= i < |rs| && rs[i].to == name;
    RenamesOf(plan, rs[i]);
    var k :| 0 <= k < |plan| && plan[k].to == Some(name);
    assert CanTake(plan, removed, disk, name);
    if Vacates(plan, name) {
      var j :| 0 <= j < |plan| && plan[j].name == name && (plan[j].to.Some? || plan[j].deletes);
      assert plan[j].id == id;
      if plan[j].to.Some? {
        var r := Rename(id, name, plan[j].to.value, plan[j].exe);
        RenamesOf(plan, r);
      }
    }
  }

  /** Once the check has passed, a file on disk that no rename takes away is left as it was;
      those taken away end at their targets (DistinctAllMove). */
  lemma {:induction false} RenamesDestroyNothing(
    plan: seq<PlanStep>, removed: map<string, bool>, disk: map<string, File>, d0: map<string, File>,
    d: map<string, File>, name: string)
    requires forall k {:trigger plan[k]} :: 0 <= k < |plan| && plan[k].to.Some? ==>
               CanTake(plan, removed, disk, plan[k].to.value)
    requires Substituted(d0, d, Renames(plan)) && d0.Keys <= disk.Keys
    requires forall k {:trigger plan[k]} :: 0 <= k < |plan| && plan[k].deletes ==> plan[k].name !in d0
    requires name in d0 && forall k {:trigger plan[k]} :: 0 <= k < |plan| && plan[k].name == name ==> plan[k].to == None
    ensures name in d && d[name] == d0[name]
  {
    var rs := Renames(plan);
    forall k | Moves(d0, rs, k) ensures rs[k].to != name && rs[k].from != name {
      RenamesOf(plan, rs[k]);
    }
  }

  // -------------------------------------------------------------------- both together

  class Checkout {
    var vfile: map<nat, Slot>
    var disk: map<string, File>

    /** Files and rows are renamed together, or neither: a refused row rename puts the files back. */
    method ApplyMergeRenames(plan: seq<PlanStep>) returns (ok: bool)
      requires Proper(vfile, Renames(plan))
      modifies this
      ensures ok <==> NoClash(old(vfile), Renames(plan), |Renames(plan)|)
      ensures !ok ==> unchanged(this)
      ensures ok ==> UniquePlaces(vfile) && LandedTo(old(vfile), vfile, Renames(plan), |Renames(plan)|)
      ensures ok ==> Substituted(old(disk), disk, Renames(plan))
    {
      var renamed := CollectRenames(plan);
      var saved := disk;
      disk := MoveRenamedFiles(disk, renamed);
      ok, vfile := RenameRows(vfile, renamed);
      if !ok {
        disk := saved;
      }
    }
  }

  method CollectRenames(plan: seq<PlanStep>) returns (renamed: seq<Rename>)
    ensures renamed == Renames(plan)
  {
    renamed := [];
    for i := 0 to |plan|
      invariant renamed + Renames(plan[i..]) == Renames(plan)
    {
      assert plan[i..][0] == plan[i] && plan[i..][1..] == plan[i + 1..];
      if plan[i].to.Some? {
        renamed := renamed + [Rename(plan[i].id, plan[i].name, plan[i].to.value, plan[i].exe)];
      }
    }
  }
}
