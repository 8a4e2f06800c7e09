/** Carrying out a revert: rows and files go back to the checked-out version, renames undone in place. */
module Revert {
  import opened Basics
  import opened SparseRecord
  import opened RevertPlan
  import opened FileTable

  /** The rows read from the table. */
  ghost predicate Loaded(vfile: map<nat, Slot>, rows: seq<Tracked>) {
    && (forall t :: t in rows ==> t.id in vfile && vfile[t.id] == Slot(At(t.name), t.row))
    && (forall id :: id in vfile ==> vfile[id].place.At? && Tracked(id, vfile[id].place.name, vfile[id].row) in rows)
  }

  // ------------------------------------------------------------- what each pass does

  predicate Leaves(a: Action) {
    a == Unmanage || a == RemoveMergeAdded || a == Displace
  }

  predicate Returns(a: Action) {
    a == Restore || a == UndoRename
  }

  /** The first pass: rows that go are deleted, renamed rows set aside. */
  function Vacate(s: Step, e: Option<Slot>): Option<Slot> {
    if Leaves(s.action) then None
    else if s.action == UndoRename && e.Some? then Some(e.value.(place := Parked(s.row.id)))
    else e
  }

  /** The name the row's file has in the version. */
  function Home(s: Step): string {
    if s.action == UndoRename && Old(s.row).Some? then Old(s.row).value else s.row.name
  }

  /** The second pass: renamed rows take their old names. */
  function TakeBack(s: Step, e: Option<Slot>): Option<Slot> {
    if s.action == UndoRename && e.Some? then Some(Slot(At(Home(s)), e.value.row.(origname := None))) else e
  }

  function PermOf(version: map<string, Perm>, name: string): Perm {
    if name in version then version[name] else Plain
  }

  function Reset(r: Row, p: Perm): Row {
    r.(chnged := 0, deleted := false, mrid := r.rid, isexe := p == Executable, islink := p == Symlink)
  }

  /** The third pass: the row of a file whose content is back. */
  function Settle(version: map<string, Perm>, s: Step, e: Option<Slot>): Option<Slot> {
    if Returns(s.action) && e.Some? then Some(e.value.(row := Reset(e.value.row, PermOf(version, Home(s))))) else e
  }

  /** A pass over the first n steps: each has had its effect on its row, no other row has changed. */
  ghost predicate PassTo(
    v0: map<nat, Slot>, v: map<nat, Slot>, steps: seq<Step>, n: nat, effect: (Step, Option<Slot>) -> Option<Slot>)
  {
    && (forall k {:trigger steps[k]} :: 0 <= k < |steps| ==>
          Get(v, steps[k].row.id) == if k < n then effect(steps[k], Get(v0, steps[k].row.id))
            else Get(v0, steps[k].row.id))
    && (forall id {:trigger Get(v, id)} :: Untouched(steps, id) ==> Get(v, id) == Get(v0, id))
  }

  ghost predicate Untouched(steps: seq<Step>, id: nat) {
    forall k {:trigger steps[k]} :: 0 <= k < |steps| ==> steps[k].row.id != id
  }

  lemma {:induction false} PassMore(
    v0: map<nat, Slot>, v: map<nat, Slot>, steps: seq<Step>, n: nat, effect: (Step, Option<Slot>) -> Option<Slot>,
    v': map<nat, Slot>)
    requires PassTo(v0, v, steps, n, effect) && StepIdsDiffer(steps) && n < |steps|
    requires Get(v', steps[n].row.id) == effect(steps[n], Get(v, steps[n].row.id))
    requires forall id {:trigger Get(v', id)} :: id != steps[n].row.id ==> Get(v', id) == Get(v, id)
    ensures PassTo(v0, v', steps, n + 1, effect)
  {
    forall k {:trigger steps[k]} | 0 <= k < |steps|
      ensures Get(v', steps[k].row.id) == if k < n + 1 then effect(steps[k], Get(v0, steps[k].row.id))
              else Get(v0, steps[k].row.id)
    {
      assert k < n ==> steps[k].row.id != steps[n].row.id;
      assert k > n ==> steps[n].row.id != steps[k].row.id;
      assert Get(v, steps[k].row.id) == if k < n then effect(steps[k], Get(v0, steps[k].row.id))
             else Get(v0, steps[k].row.id);
    }
    forall id {:trigger Get(v', id)} | Untouched(steps, id) ensures Get(v', id) == Get(v0, id) {
      assert steps[n].row.id != id;
      assert Get(v, id) == Get(v0, id);
    }
  }

  /** All three passes. */
  function Reverted(version: map<string, Perm>, s: Step, e: Option<Slot>): Option<Slot> {
    Settle(version, s, TakeBack(s, Vacate(s, e)))
  }

  // ----------------------------------------------------------------- names stay unique

  /** No two renames go back to one name. */
  ghost predicate OldNamesDiffer(steps: seq<Step>) {
    forall j, k :: 0 <= j < k < |steps| && steps[j].action == UndoRename && steps[k].action == UndoRename ==>
        Old(steps[j].row) != Old(steps[k].row)
  }

  /** Up to step n. */
  ghost predicate OldNamesDifferTo(steps: seq<Step>, n: nat) {
    forall j, k :: 0 <= j < k < n && k < |steps| && steps[j].action == UndoRename && steps[k].action == UndoRename ==>
        Old(steps[j].row) != Old(steps[k].row)
  }

  /** What stands under the name step n goes back to, when the steps before it have taken theirs. */
  lemma {:induction false} OnlyEarlierRename(
    v0: map<nat, Slot>, rows: seq<Tracked>, targets: seq<Tracked>, inVersion: set<string>, steps: seq<Step>,
    v1: map<nat, Slot>, v: map<nat, Slot>, n: nat, id: nat)
    requires Table(rows) && Loaded(v0, rows) && Planned(rows, targets, inVersion, steps)
    requires PassTo(v0, v1, steps, |steps|, Vacate) && PassTo(v1, v, steps, n, TakeBack)
    requires n < |steps| && steps[n].action == UndoRename && Old(steps[n].row).Some?
    requires id in v && id != steps[n].row.id && v[id].place == At(Home(steps[n]))
    ensures exists k :: 0 <= k < n && steps[k].row.id == id
                        && steps[k].action == UndoRename && Old(steps[k].row) == Old(steps[n].row)
  {
    if Untouched(steps, id) {
      assert Get(v, id) == Get(v1, id) == Get(v0, id);
      var t := Tracked(id, Home(steps[n]), v0[id].row);
      assert t in rows;
      NotUntouched(rows, targets, inVersion, steps, n, t);
    } else {
      var k: nat :| k < |steps| && steps[k].row.id == id;
      assert steps[k].row in rows;
      assert Get(v1, id) == Vacate(steps[k], Get(v0, id));
      assert Get(v, id) == if k < n then TakeBack(steps[k], Get(v1, id)) else Get(v1, id);
      if steps[k].action == Restore {
        NotRestored(rows, targets, inVersion, steps, n, k);
      } else {
        assert steps[k].action == UndoRename && k < n;
        HasOld(rows, targets, inVersion, steps, k);
      }
    }
  }

  lemma {:induction false} HasOld(
    rows: seq<Tracked>, targets: seq<Tracked>, inVersion: set<string>, steps: seq<Step>, k: nat)
    requires Planned(rows, targets, inVersion, steps) && k < |steps| && steps[k].action == UndoRename
    ensures Old(steps[k].row).Some? && Old(steps[k].row).value != steps[k].row.name && steps[k].row in rows
            && steps[k].row.row.rid != 0
  {
    assert RightAction(steps, |steps|, steps[k], inVersion);
  }

  lemma {:induction false} NotUntouched(
    rows: seq<Tracked>, targets: seq<Tracked>, inVersion: set<string>, steps: seq<Step>, n: nat, t: Tracked)
    requires Planned(rows, targets, inVersion, steps) && n < |steps| && t in rows && Undoes(steps[n], t.name)
    ensures !Untouched(steps, t.id)
  {
    assert WayMade(rows, steps, steps[n]);
    assert MadeWay(steps, t);
  }

  lemma {:induction false} NotRestored(
    rows: seq<Tracked>, targets: seq<Tracked>, inVersion: set<string>, steps: seq<Step>, n: nat, k: nat)
    requires Planned(rows, targets, inVersion, steps) && n < |steps| && k < |steps|
             && Undoes(steps[n], steps[k].row.name)
    ensures steps[k].action != Restore
  {
    assert WayMade(rows, steps, steps[n]) && steps[k].row in rows;
    assert MadeWay(steps, steps[k].row);
    var j :| 0 <= j < |steps| && steps[j].row == steps[k].row && steps[j].action != Restore;
    assert j == k;
  }

  // ------------------------------------------------------------------------- passes

  function Settler(version: map<string, Perm>): (Step, Option<Slot>) -> Option<Slot> {
    (s, e) => Settle(version, s, e)
  }

  /** The names whose files the first pass removes. */
  ghost function ClearedNames(steps: seq<Step>): set<string> {
    set k | 0 <= k < |steps|
      && (steps[k].action == UndoRename || steps[k].action == RemoveMergeAdded) :: steps[k].row.name
  }

  lemma {:induction false} ClearedMore(steps: seq<Step>, i: nat)
    requires i < |steps|
    ensures ClearedNames(steps[..i + 1]) == ClearedNames(steps[..i]) +
              if steps[i].action == UndoRename || steps[i].action == RemoveMergeAdded then {steps[i].row.name} else {}
  {
    var more, less := steps[..i + 1], steps[..i];
    assert forall k {:trigger more[k]} :: 0 <= k < i ==> more[k] == less[k];
    assert more[i] == steps[i];
    forall name | name in ClearedNames(less) ensures name in ClearedNames(more) {
      var k :| 0 <= k < |less| && (less[k].action == UndoRename || less[k].action == RemoveMergeAdded)
        && less[k].row.name == name;
      assert more[k] == less[k];
    }
  }

  /** Only a row's own placeholder parks it. */
  ghost predicate ParkedApart(vfile: map<nat, Slot>) {
    forall id :: id in vfile && vfile[id].place.Parked? ==> vfile[id].place.id == id
  }

  ghost predicate Tabled(vfile: map<nat, Slot>, steps: seq<Step>) {
    forall k {:trigger steps[k]} :: 0 <= k < |steps| ==> steps[k].row.id in vfile
  }

  /** The files of the first n steps that come back have their content, no other file has changed. */
  ghost predicate WrittenTo(before: map<string, int>, after: map<string, int>, steps: seq<Step>, n: nat) {
    && (forall k {:trigger steps[k]} :: 0 <= k < n && k < |steps| && Returns(steps[k].action) ==>
          Home(steps[k]) in after && after[Home(steps[k])] == steps[k].row.row.rid)
    && (forall name {:trigger name in after} :: !HomeOf(steps, n, name) ==>
          (name in after <==> name in before) && (name in after ==> after[name] == before[name]))
  }

  ghost predicate HomeOf(steps: seq<Step>, n: nat, name: string) {
    exists k :: 0 <= k < n && k < |steps| && Returns(steps[k].action) && Home(steps[k]) == name
  }

  ghost predicate HomesDiffer(steps: seq<Step>) {
    forall j, k :: 0 <= j < k < |steps| && Returns(steps[j].action) && Returns(steps[k].action) ==>
        Home(steps[j]) != Home(steps[k])
  }

  lemma {:induction false} WriteMore(before: map<string, int>, after: map<string, int>, steps: seq<Step>, n: nat)
    requires WrittenTo(before, after, steps, n) && HomesDiffer(steps) && n < |steps|
    ensures Returns(steps[n].action) ==> WrittenTo(before, after[Home(steps[n]) := steps[n].row.row.rid], steps, n + 1)
    ensures !Returns(steps[n].action) ==> WrittenTo(before, after, steps, n + 1)
  {
    var after' := if Returns(steps[n].action) then after[Home(steps[n]) := steps[n].row.row.rid] else after;
    forall name {:trigger name in after'} | !HomeOf(steps, n + 1, name)
      ensures (name in after' <==> name in before) && (name in after' ==> after'[name] == before[name])
    {
      assert name in after <==> name in before;
    }
  }

  lemma {:induction false} PlacedHomesDiffer(vfile: map<nat, Slot>, steps: seq<Step>)
    requires UniquePlaces(vfile) && StepIdsDiffer(steps)
    requires forall k {:trigger steps[k]} :: 0 <= k < |steps| && Returns(steps[k].action) ==>
      steps[k].row.id in vfile && vfile[steps[k].row.id].place == At(Home(steps[k]))
    ensures HomesDiffer(steps)
  {
  }

  /** The places of the rows that come back, after the second pass. */
  lemma {:induction false} PlacedHome(
    v0: map<nat, Slot>, rows: seq<Tracked>, targets: seq<Tracked>, inVersion: set<string>, steps: seq<Step>,
    v1: map<nat, Slot>, v: map<nat, Slot>, k: nat)
    requires Loaded(v0, rows) && Planned(rows, targets, inVersion, steps)
    requires PassTo(v0, v1, steps, |steps|, Vacate) && PassTo(v1, v, steps, |steps|, TakeBack)
    requires k < |steps| && Returns(steps[k].action)
    ensures steps[k].row.id in v && v[steps[k].row.id].place == At(Home(steps[k]))
  {
    assert steps[k].row in rows;
    assert Get(v1, steps[k].row.id) == Vacate(steps[k], Get(v0, steps[k].row.id));
    assert Get(v, steps[k].row.id) == TakeBack(steps[k], Get(v1, steps[k].row.id));
  }

  lemma {:induction false} PlannedTabled(
    v0: map<nat, Slot>, rows: seq<Tracked>, targets: seq<Tracked>, inVersion: set<string>, steps: seq<Step>)
    requires Loaded(v0, rows) && Planned(rows, targets, inVersion, steps)
    ensures Tabled(v0, steps) && StepIdsDiffer(steps) && ParkedApart(v0)
  {
    forall k {:trigger steps[k]} | 0 <= k < |steps| ensures steps[k].row.id in v0 {
      assert steps[k].row in rows;
    }
  }

  /** What three passes over all the steps come to. */
  lemma {:induction false} PassesCompose(
    v0: map<nat, Slot>, v1: map<nat, Slot>, v2: map<nat, Slot>, v3: map<nat, Slot>, steps: seq<Step>,
    version: map<string, Perm>)
    requires PassTo(v0, v1, steps, |steps|, Vacate) && PassTo(v1, v2, steps, |steps|, TakeBack)
             && PassTo(v2, v3, steps, |steps|, Settler(version))
    ensures PassTo(v0, v3, steps, |steps|, Reverter(version))
  {
    forall k {:trigger steps[k]} | 0 <= k < |steps|
      ensures Get(v3, steps[k].row.id) == Reverted(version, steps[k], Get(v0, steps[k].row.id))
    {
      var id := steps[k].row.id;
      assert Get(v1, id) == Vacate(steps[k], Get(v0, id));
      assert Get(v2, id) == TakeBack(steps[k], Get(v1, id));
      assert Get(v3, id) == Settler(version)(steps[k], Get(v2, id));
    }
    forall id {:trigger Get(v3, id)} | Untouched(steps, id) ensures Get(v3, id) == Get(v0, id) {
      assert Get(v3, id) == Get(v2, id) && Get(v2, id) == Get(v1, id) && Get(v1, id) == Get(v0, id);
    }
  }

  function Reverter(version: map<string, Perm>): (Step, Option<Slot>) -> Option<Slot> {
    (s, e) => Reverted(version, s, e)
  }

  class Checkout {
    const version: map<string, Perm>
    var vfile: map<nat, Slot>
    var disk: map<string, int>

    method VacateRow(s: Step)
      requires s.row.id in vfile && UniquePlaces(vfile) && ParkedApart(vfile)
      modifies this`vfile, this`disk
      ensures UniquePlaces(vfile) && ParkedApart(vfile)
      ensures Get(vfile, s.row.id) == Vacate(s, Get(old(vfile), s.row.id))
      ensures forall id {:trigger Get(vfile, id)} :: id != s.row.id ==> Get(vfile, id) == Get(old(vfile), id)
      ensures disk == old(disk) - if s.action == UndoRename || s.action == RemoveMergeAdded then {s.row.name} else {}
    {
      match s.action {
        case Restore =>
        case UndoRename =>
          disk := disk - {s.row.name};
          var ok, parked := Update(vfile, s.row.id, vfile[s.row.id].(place := Parked(s.row.id)));
          assert ok;
          vfile := parked;
        case RemoveMergeAdded =>
          disk := disk - {s.row.name};
          vfile := vfile - {s.row.id};
        case Unmanage =>
          vfile := vfile - {s.row.id};
        case Displace =>
          vfile := vfile - {s.row.id};
      }
    }

    /** The first pass: what leaves its name leaves it. */
    method VacateAll(steps: seq<Step>)
      requires Tabled(vfile, steps) && StepIdsDiffer(steps) && UniquePlaces(vfile) && ParkedApart(vfile)
      modifies this`vfile, this`disk
      ensures UniquePlaces(vfile)
      ensures PassTo(old(vfile), vfile, steps, |steps|, Vacate)
      ensures disk == old(disk) - ClearedNames(steps)
    {
      for i := 0 to |steps|
        invariant UniquePlaces(vfile) && ParkedApart(vfile)
        invariant PassTo(old(vfile), vfile, steps, i, Vacate)
        invariant disk == old(disk) - ClearedNames(steps[..i])
      {
        ghost var before := vfile;
        StillTabled(old(vfile), vfile, steps, i, Vacate);
        ClearedMore(steps, i);
        VacateRow(steps[i]);
        PassMore(old(vfile), before, steps, i, Vacate, vfile);
      }
      assert steps[..|steps|] == steps;
    }

    /** One row of the second pass; it fails only over an earlier rename to the same name. */
    method TakeBackName(
      steps: seq<Step>, i: nat, ghost v0: map<nat, Slot>, ghost rows: seq<Tracked>, ghost targets: seq<Tracked>,
      ghost inVersion: set<string>, ghost v1: map<nat, Slot>)
      returns (ok: bool)
      requires Table(rows) && Loaded(v0, rows) && Planned(rows, targets, inVersion, steps) && i < |steps|
      requires PassTo(v0, v1, steps, |steps|, Vacate) && PassTo(v1, vfile, steps, i, TakeBack)
      requires UniquePlaces(vfile) && OldNamesDifferTo(steps, i)
      modifies this`vfile
      ensures UniquePlaces(vfile)
      ensures ok ==> PassTo(v1, vfile, steps, i + 1, TakeBack) && OldNamesDifferTo(steps, i + 1)
      ensures !ok ==> !OldNamesDiffer(steps)
    {
      var s := steps[i];
      if s.action == UndoRename {
        RenamedStands(v0, rows, targets, inVersion, steps, v1, vfile, i);
        var slot := Slot(At(Home(s)), vfile[s.row.id].row.(origname := None));
        var moved;
        ok, moved := Update(vfile, s.row.id, slot);
        vfile := moved;
        if !ok {
          ghost var j :| j in old(vfile) && j != s.row.id && old(vfile)[j].place == slot.place;
          OnlyEarlierRename(v0, rows, targets, inVersion, steps, v1, old(vfile), i, j);
          return;
        }
        NoEarlierRename(v0, rows, targets, inVersion, steps, v1, old(vfile), i);
      } else {
        ok := true;
      }
      PassMore(v1, old(vfile), steps, i, TakeBack, vfile);
    }

    /** The second pass: it stops where two renames go back to one name, and nowhere else. */
    method TakeBackNames(
      steps: seq<Step>, ghost v0: map<nat, Slot>, ghost rows: seq<Tracked>, ghost targets: seq<Tracked>,
      ghost inVersion: set<string>)
      returns (ok: bool)
      requires Table(rows) && Loaded(v0, rows) && Planned(rows, targets, inVersion, steps)
      requires PassTo(v0, vfile, steps, |steps|, Vacate) && UniquePlaces(vfile)
      modifies this`vfile
      ensures ok <==> OldNamesDiffer(steps)
      ensures ok ==> UniquePlaces(vfile) && PassTo(old(vfile), vfile, steps, |steps|, TakeBack)
    {
      ghost var v1 := vfile;
      for i := 0 to |steps|
        invariant UniquePlaces(vfile) && PassTo(v1, vfile, steps, i, TakeBack)
        invariant OldNamesDifferTo(steps, i)
      {
        var moved := TakeBackName(steps, i, v0, rows, targets, inVersion, v1);
        if !moved {
          return false;
        }
      }
      return true;
    }

    /** The third pass: committed content is written, and its rows show no change. */
    method RestoreFiles(steps: seq<Step>)
      requires StepIdsDiffer(steps) && UniquePlaces(vfile) && HomesDiffer(steps)
      requires forall k {:trigger steps[k]} :: 0 <= k < |steps| && Returns(steps[k].action) ==> steps[k].row.id in vfile
      modifies this`vfile, this`disk
      ensures UniquePlaces(vfile)
      ensures PassTo(old(vfile), vfile, steps, |steps|, Settler(version))
      ensures WrittenTo(old(disk), disk, steps, |steps|)
    {
      for i := 0 to |steps|
        invariant UniquePlaces(vfile) && vfile.Keys == old(vfile).Keys
        invariant PassTo(old(vfile), vfile, steps, i, Settler(version))
        invariant WrittenTo(old(disk), disk, steps, i)
      {
        ghost var before := vfile;
        WriteMore(old(disk), disk, steps, i);
        RestoreFile(steps[i]);
        PassMore(old(vfile), before, steps, i, Settler(version), vfile);
      }
    }

    /** One file's committed content is written, if the step brings it back. */
    method RestoreFile(s: Step)
      requires UniquePlaces(vfile) && (Returns(s.action) ==> s.row.id in vfile)
      modifies this`vfile, this`disk
      ensures UniquePlaces(vfile) && vfile.Keys == old(vfile).Keys
      ensures Get(vfile, s.row.id) == Settler(version)(s, Get(old(vfile), s.row.id))
      ensures forall id {:trigger Get(vfile, id)} :: id != s.row.id ==> Get(vfile, id) == Get(old(vfile), id)
      ensures disk == if Returns(s.action) then old(disk)[Home(s) := s.row.row.rid] else old(disk)
    {
      if Returns(s.action) {
        disk := disk[Home(s) := s.row.row.rid];
        vfile := vfile[s.row.id := Settle(version, s, Some(vfile[s.row.id])).value];
      }
    }

    /**
     * The planned rows are reverted together, or nothing changes. It fails exactly
     * when two of the renames it undoes go back to one name.
     */
    method RevertRows(rows: seq<Tracked>, targets: seq<Tracked>) returns (ok: bool, ghost steps: seq<Step>)
      requires Table(rows) && Loaded(vfile, rows) && forall t :: t in targets ==> t in rows
      modifies this
      ensures Planned(rows, targets, version.Keys, steps)
      ensures ok <==> OldNamesDiffer(steps)
      ensures !ok ==> unchanged(this)
      ensures ok ==> UniquePlaces(vfile) && PassTo(old(vfile), vfile, steps, |steps|, Reverter(version))
      ensures ok ==> WrittenTo(old(disk) - ClearedNames(steps), disk, steps, |steps|)
    {
      var plan := PlanRevertSteps(rows, targets, version.Keys);
      steps := plan;
      var savedRows, savedFiles := vfile, disk;
      PlannedTabled(vfile, rows, targets, version.Keys, plan);
      LoadedUnique(vfile, rows);
      VacateAll(plan);
      ghost var v1 := vfile;
      ok := TakeBackNames(plan, savedRows, rows, targets, version.Keys);
      if !ok {
        vfile, disk := savedRows, savedFiles;
        return;
      }
      ghost var v2 := vfile;
      AllPlacedHome(savedRows, rows, targets, version.Keys, plan, v1, v2);
      PlacedHomesDiffer(v2, plan);
      RestoreFiles(plan);
      PassesCompose(savedRows, v1, v2, vfile, plan, version);
    }

    /**
     * Every changed row is reverted. Unless two renamed rows go back to one name,
     * each committed file ends under its name in the version, row and content.
     */
    method RevertAll(rows: seq<Tracked>) returns (ok: bool)
      requires Table(rows) && Loaded(vfile, rows)
      requires forall t :: t in rows && !NeedsRevert(t, t.name !in disk) ==> disk[t.name] == t.row.rid
      modifies this
      ensures ok <==> forall t, u, name ::
                t in rows && u in rows && GoesBack(t, version.Keys, name) && GoesBack(u, version.Keys, name) ==> t == u
      ensures !ok ==> unchanged(this)
      ensures ok ==> forall t :: t in rows ==> AsRecorded(rows, version, t, old(disk), vfile, disk)
      ensures ok ==> UniquePlaces(vfile)
      ensures ok ==> forall t :: t in rows ==>
                EndsAs(rows, version, t, NeedsRevert(t, t.name !in old(disk)), vfile, disk)
      ensures ok ==> forall id :: id in vfile ==> id in old(vfile)
      ensures ok ==> forall t :: t in rows ==>
                FileEndsAs(rows, version, t, NeedsRevert(t, t.name !in old(disk)), old(disk), disk)
      ensures ok ==> forall name :: !HasRow(rows, name) && !Wanted(rows, version.Keys, name) ==>
                SameAt(old(disk), disk, name)
    {
      var targets: seq<Tracked> := [];
      for i := 0 to |rows|
        invariant forall t :: t in targets <==> t in rows[..i] && NeedsRevert(t, t.name !in disk)
      {
        assert rows[..i + 1] == rows[..i] + [rows[i]];
        if NeedsRevert(rows[i], rows[i].name !in disk) {
          targets := targets + [rows[i]];
        }
      }
      assert rows[..|rows|] == rows;
      ghost var before, files := vfile, disk;
      ghost var steps;
      ok, steps := RevertRows(rows, targets);
      AllRenames(rows, targets, version.Keys, steps);
      DifferAsRecorded(rows, version.Keys);
      if ok {
        forall t | t in rows ensures EndsAs(rows, version, t, NeedsRevert(t, t.name !in files), vfile, disk) {
          OutcomeOf(rows, targets, version, steps, before, vfile, files, disk, t);
        }
        forall id | id in vfile ensures id in before {
          assert Get(vfile, id) == Get(vfile, id);
          NoNewRow(before, vfile, steps, version, id);
        }
        forall t | t in rows ensures FileEndsAs(rows, version, t, NeedsRevert(t, t.name !in files), files, disk) {
          FileOutcome(rows, targets, version, steps, files, disk, t);
        }
        forall t | t in rows ensures AsRecorded(rows, version, t, files, vfile, disk) {
          OutcomeAsRecorded(rows, version, t, files, vfile, disk);
        }
        forall name | !HasRow(rows, name) && !Wanted(rows, version.Keys, name) ensures SameAt(files, disk, name) {
          FileElsewhere(rows, targets, version, steps, files, disk, name);
        }
      }
    }
  }

  /** A name no committed file returns to is written by no step, unless its own row is restored. */
  lemma {:induction false} NotWritten(
    rows: seq<Tracked>, targets: seq<Tracked>, inVersion: set<string>, steps: seq<Step>, name: string)
    requires Planned(rows, targets, inVersion, steps) && !Wanted(rows, inVersion, name)
    requires forall k {:trigger steps[k]} :: 0 <= k < |steps| && steps[k].row.name == name ==>
               steps[k].action != Restore
    ensures !HomeOf(steps, |steps|, name)
  {
    forall k {:trigger steps[k]} | 0 <= k < |steps| && Returns(steps[k].action) ensures Home(steps[k]) != name {
      assert steps[k].row in rows && RightAction(steps, |steps|, steps[k], inVersion);
    }
  }

  lemma {:induction false} FileElsewhere(
    rows: seq<Tracked>, targets: seq<Tracked>, version: map<string, Perm>, steps: seq<Step>,
    d0: map<string, int>, d: map<string, int>, name: string)
    requires Planned(rows, targets, version.Keys, steps) && WrittenTo(d0 - ClearedNames(steps), d, steps, |steps|)
    requires !HasRow(rows, name) && !Wanted(rows, version.Keys, name)
    ensures SameAt(d0, d, name)
  {
    assert forall k {:trigger steps[k]} :: 0 <= k < |steps| ==> steps[k].row in rows;
    NotWritten(rows, targets, version.Keys, steps, name);
    assert name in d <==> name in d0 - ClearedNames(steps);
  }

  lemma {:induction false} FileOutcome(
    rows: seq<Tracked>, targets: seq<Tracked>, version: map<string, Perm>, steps: seq<Step>,
    d0: map<string, int>, d: map<string, int>, t: Tracked)
    requires Table(rows) && AllTargets(rows, targets, d0) && Planned(rows, targets, version.Keys, steps)
    requires WrittenTo(d0 - ClearedNames(steps), d, steps, |steps|) && t in rows
    ensures FileEndsAs(rows, version, t, NeedsRevert(t, t.name !in d0), d0, d)
  {
    if !Wanted(rows, version.Keys, t.name) && PlanRevert(t, version.Keys) != Restore {
      forall k {:trigger steps[k]} | 0 <= k < |steps| && steps[k].row.name == t.name
        ensures steps[k].row == t && steps[k].action == PlanRevert(t, version.Keys)
      {
        assert steps[k].row in rows && RightAction(steps, |steps|, steps[k], version.Keys);
        SameId(rows, steps[k].row, t);
      }
      NotWritten(rows, targets, version.Keys, steps, t.name);
      assert t.name in d <==> t.name in d0 - ClearedNames(steps);
      ClearedExactly(rows, targets, version.Keys, steps, d0, t);
    }
  }

  lemma {:induction false} ClearedExactly(
    rows: seq<Tracked>, targets: seq<Tracked>, inVersion: set<string>, steps: seq<Step>, d0: map<string, int>,
    t: Tracked)
    requires AllTargets(rows, targets, d0) && Planned(rows, targets, inVersion, steps) && t in rows
    requires !Wanted(rows, inVersion, t.name)
    requires forall k {:trigger steps[k]} :: 0 <= k < |steps| && steps[k].row.name == t.name ==>
      steps[k].row == t && steps[k].action == PlanRevert(t, inVersion)
    ensures t.name in ClearedNames(steps) <==>
              PlanRevert(t, inVersion) == UndoRename
              || (PlanRevert(t, inVersion) == RemoveMergeAdded && NeedsRevert(t, t.name !in d0))
  {
    if t in targets {
      assert PlannedFor(steps, t);
      var k :| 0 <= k < |steps| && steps[k].row == t;
      assert steps[k].action == PlanRevert(t, inVersion);
    }
    if k: nat :| k < |steps| && steps[k].row.name == t.name {
      CalledFor(rows, targets, inVersion, steps, k);
    }
  }

  lemma {:induction false} NoNewRow(
    v0: map<nat, Slot>, v: map<nat, Slot>, steps: seq<Step>, version: map<string, Perm>, id: nat)
    requires PassTo(v0, v, steps, |steps|, Reverter(version)) && id in v
    ensures id in v0
  {
    assert Get(v, id).Some?;
    if !Untouched(steps, id) {
      var k :| 0 <= k < |steps| && steps[k].row.id == id;
      assert Get(v, id) == Reverted(version, steps[k], Get(v0, id));
    }
  }

  lemma {:induction false} LoadedUnique(vfile: map<nat, Slot>, rows: seq<Tracked>)
    requires Table(rows) && Loaded(vfile, rows)
    ensures UniquePlaces(vfile)
  {
    forall i, j | i in vfile && j in vfile && i != j ensures vfile[i].place != vfile[j].place {
      var a := Tracked(i, vfile[i].place.name, vfile[i].row);
      var b := Tracked(j, vfile[j].place.name, vfile[j].row);
      assert a in rows && b in rows;
      if a.name == b.name {
        SameId(rows, a, b);
      }
    }
  }

  lemma {:induction false} AllPlacedHome(
    v0: map<nat, Slot>, rows: seq<Tracked>, targets: seq<Tracked>, inVersion: set<string>, steps: seq<Step>,
    v1: map<nat, Slot>, v: map<nat, Slot>)
    requires Loaded(v0, rows) && Planned(rows, targets, inVersion, steps)
    requires PassTo(v0, v1, steps, |steps|, Vacate) && PassTo(v1, v, steps, |steps|, TakeBack)
    ensures forall k {:trigger steps[k]} :: 0 <= k < |steps| && Returns(steps[k].action) ==>
      steps[k].row.id in v && v[steps[k].row.id].place == At(Home(steps[k]))
  {
    forall k {:trigger steps[k]} | 0 <= k < |steps| && Returns(steps[k].action)
      ensures steps[k].row.id in v && v[steps[k].row.id].place == At(Home(steps[k]))
    {
      PlacedHome(v0, rows, targets, inVersion, steps, v1, v, k);
    }
  }

  // ----------------------------------------------------------------------- revert-all

  /** No two rows whose renames are undone go back to one name. */
  ghost predicate RenamesDiffer(rows: seq<Tracked>, inVersion: set<string>) {
    forall t, u ::
      t in rows && u in rows && t != u
      && PlanRevert(t, inVersion) == UndoRename && PlanRevert(u, inVersion) == UndoRename
      ==> Old(t) != Old(u)
  }

  /** Some row's rename goes back to name. */
  ghost predicate Wanted(rows: seq<Tracked>, inVersion: set<string>, name: string) {
    exists u :: u in rows && PlanRevert(u, inVersion) == UndoRename && Old(u) == Some(name)
  }

  /** Row id stands under name, its file there with the committed content. */
  ghost predicate Stands(vfile: map<nat, Slot>, disk: map<string, int>, id: nat, name: string, row: Row) {
    id in vfile && vfile[id] == Slot(At(name), row) && name in disk && disk[name] == row.rid
  }

  /** What becomes of row t when everything is reverted. */
  ghost predicate EndsAs(
    rows: seq<Tracked>, version: map<string, Perm>, t: Tracked, needs: bool, vfile: map<nat, Slot>,
    disk: map<string, int>)
  {
    match PlanRevert(t, version.Keys)
    case UndoRename =>
      Old(t).Some?
        && Stands(vfile, disk, t.id, Old(t).value, Reset(t.row.(origname := None), PermOf(version, Old(t).value)))
    case Restore =>
      if Wanted(rows, version.Keys, t.name) then t.id !in vfile
      else Stands(vfile, disk, t.id, t.name, if needs then Reset(t.row, PermOf(version, t.name)) else t.row)
    case _ =>
      if needs || Wanted(rows, version.Keys, t.name) then t.id !in vfile
      else Stands(vfile, disk, t.id, t.name, t.row)
  }

  /** The file under a name is as it was, there or not. */
  ghost predicate SameAt(d0: map<string, int>, d: map<string, int>, name: string) {
    (name in d <==> name in d0) && (name in d ==> d[name] == d0[name])
  }

  /** What becomes of the file under row t's name, if no committed file returns to it: a
      renamed or merge-added one is removed, the file of an un-managed add stays. */
  ghost predicate FileEndsAs(
    rows: seq<Tracked>, version: map<string, Perm>, t: Tracked, needs: bool, d0: map<string, int>, d: map<string, int>)
  {
    !Wanted(rows, version.Keys, t.name) ==>
      match PlanRevert(t, version.Keys)
      case UndoRename => t.name !in d
      case RemoveMergeAdded => if needs then t.name !in d else SameAt(d0, d, t.name)
      case Unmanage => SameAt(d0, d, t.name)
      case _ => true
  }

  ghost predicate HasRow(rows: seq<Tracked>, name: string) {
    exists t :: t in rows && t.name == name
  }

  /** The targets of revert-all: every row that needs it. */
  ghost predicate AllTargets(rows: seq<Tracked>, targets: seq<Tracked>, disk: map<string, int>) {
    forall t :: t in targets <==> t in rows && NeedsRevert(t, t.name !in disk)
  }

  lemma {:induction false} RenameIsPlanned(
    rows: seq<Tracked>, targets: seq<Tracked>, inVersion: set<string>, steps: seq<Step>, t: Tracked) returns (k: nat)
    requires Planned(rows, targets, inVersion, steps) && t in targets && PlanRevert(t, inVersion) == UndoRename
    ensures k < |steps| && steps[k] == Step(t, UndoRename)
  {
    assert PlannedFor(steps, t);
    k :| 0 <= k < |steps| && steps[k].row == t;
    assert RightAction(steps, |steps|, steps[k], inVersion);
  }

  lemma {:induction false} AllRenames(
    rows: seq<Tracked>, targets: seq<Tracked>, inVersion: set<string>, steps: seq<Step>)
    requires Table(rows) && Planned(rows, targets, inVersion, steps)
    requires forall t :: t in rows && Old(t).Some? ==> t in targets
    ensures OldNamesDiffer(steps) <==> RenamesDiffer(rows, inVersion)
  {
    if RenamesDiffer(rows, inVersion) {
      forall j, k | 0 <= j < k < |steps| && steps[j].action == UndoRename && steps[k].action == UndoRename
        ensures Old(steps[j].row) != Old(steps[k].row)
      {
        assert RightAction(steps, |steps|, steps[j], inVersion) && RightAction(steps, |steps|, steps[k], inVersion);
        assert steps[j].row in rows && steps[k].row in rows;
      }
    }
    if OldNamesDiffer(steps) {
      forall t, u | t in rows && u in rows && t != u && PlanRevert(t, inVersion) == UndoRename
        && PlanRevert(u, inVersion) == UndoRename
        ensures Old(t) != Old(u)
      {
        var j := RenameIsPlanned(rows, targets, inVersion, steps, t);
        var k := RenameIsPlanned(rows, targets, inVersion, steps, u);
      }
    }
  }

  lemma {:induction false} OutcomeOf(
    rows: seq<Tracked>, targets: seq<Tracked>, version: map<string, Perm>, steps: seq<Step>,
    v0: map<nat, Slot>, v: map<nat, Slot>, d0: map<string, int>, d: map<string, int>, t: Tracked)
    requires Table(rows) && Loaded(v0, rows) && AllTargets(rows, targets, d0)
             && Planned(rows, targets, version.Keys, steps)
    requires PassTo(v0, v, steps, |steps|, Reverter(version)) && WrittenTo(d0 - ClearedNames(steps), d, steps, |steps|)
    requires t in rows && (!NeedsRevert(t, t.name !in d0) ==> d0[t.name] == t.row.rid)
    ensures EndsAs(rows, version, t, NeedsRevert(t, t.name !in d0), v, d)
  {
    if PlannedFor(steps, t) {
      var k :| 0 <= k < |steps| && steps[k].row == t;
      PlannedOutcome(rows, targets, version, steps, v0, v, d0, d, k);
    } else {
      UnplannedOutcome(rows, targets, version, steps, v0, v, d0, d, t);
    }
  }

  lemma {:induction false} PlannedOutcome(
    rows: seq<Tracked>, targets: seq<Tracked>, version: map<string, Perm>, steps: seq<Step>,
    v0: map<nat, Slot>, v: map<nat, Slot>, d0: map<string, int>, d: map<string, int>, k: nat)
    requires Loaded(v0, rows) && AllTargets(rows, targets, d0) && Planned(rows, targets, version.Keys, steps)
    requires PassTo(v0, v, steps, |steps|, Reverter(version)) && WrittenTo(d0 - ClearedNames(steps), d, steps, |steps|)
    requires k < |steps|
    ensures EndsAs(rows, version, steps[k].row, NeedsRevert(steps[k].row, steps[k].row.name !in d0), v, d)
  {
    var t := steps[k].row;
    StepFacts(rows, targets, version, steps, v0, v, d0, k);
    EndsByAction(rows, version, steps[k], NeedsRevert(t, t.name !in d0), v, d);
  }

  lemma {:induction false} StepFacts(
    rows: seq<Tracked>, targets: seq<Tracked>, version: map<string, Perm>, steps: seq<Step>,
    v0: map<nat, Slot>, v: map<nat, Slot>, d0: map<string, int>, k: nat)
    requires Loaded(v0, rows) && AllTargets(rows, targets, d0) && Planned(rows, targets, version.Keys, steps)
    requires PassTo(v0, v, steps, |steps|, Reverter(version)) && k < |steps|
    ensures Get(v, steps[k].row.id) == Reverted(version, steps[k], Some(Slot(At(steps[k].row.name), steps[k].row.row)))
    ensures RightFor(rows, version.Keys, steps[k], NeedsRevert(steps[k].row, steps[k].row.name !in d0))
  {
    var t := steps[k].row;
    assert t in rows && RightAction(steps, |steps|, steps[k], version.Keys);
    assert Get(v, t.id) == Reverter(version)(steps[k], Get(v0, t.id));
    if PlanRevert(t, version.Keys) == Restore {
      RestoreUnlessWanted(rows, targets, version.Keys, steps, d0, k);
    } else {
      CalledFor(rows, targets, version.Keys, steps, k);
    }
  }

  /** A planned row was a target, or is wanted out of the way. */
  lemma {:induction false} CalledFor(
    rows: seq<Tracked>, targets: seq<Tracked>, inVersion: set<string>, steps: seq<Step>, k: nat)
    requires Planned(rows, targets, inVersion, steps) && k < |steps|
    ensures steps[k].row in targets || Wanted(rows, inVersion, steps[k].row.name)
  {
    assert Called(steps, |steps|, targets, steps[k]);
    if Claimed(steps, |steps|, steps[k].row.name) {
      var j :| 0 <= j < |steps| && Undoes(steps[j], steps[k].row.name);
      assert steps[j].row in rows && RightAction(steps, |steps|, steps[j], inVersion);
    }
  }

  /** The step's action among all the rows. */
  ghost predicate RightFor(rows: seq<Tracked>, inVersion: set<string>, s: Step, needs: bool) {
    if PlanRevert(s.row, inVersion) != Restore then
      s.action == PlanRevert(s.row, inVersion) && (needs || Wanted(rows, inVersion, s.row.name))
    else if Wanted(rows, inVersion, s.row.name) then s.action == Displace
    else s.action == Restore && needs
  }

  lemma {:induction false} EndsByAction(
    rows: seq<Tracked>, version: map<string, Perm>, s: Step, needs: bool, v: map<nat, Slot>, d: map<string, int>)
    requires Get(v, s.row.id) == Reverted(version, s, Some(Slot(At(s.row.name), s.row.row)))
    requires RightFor(rows, version.Keys, s, needs)
    requires Returns(s.action) ==> Home(s) in d && d[Home(s)] == s.row.row.rid
    ensures EndsAs(rows, version, s.row, needs, v, d)
  {
  }

  /** A row that would be restored is, unless a rename goes back to its name; without a rename it was a target. */
  lemma {:induction false} RestoreUnlessWanted(
    rows: seq<Tracked>, targets: seq<Tracked>, inVersion: set<string>, steps: seq<Step>, d0: map<string, int>, k: nat)
    requires AllTargets(rows, targets, d0) && Planned(rows, targets, inVersion, steps)
    requires k < |steps| && PlanRevert(steps[k].row, inVersion) == Restore
    ensures steps[k].action == if Wanted(rows, inVersion, steps[k].row.name) then Displace else Restore
    ensures !Wanted(rows, inVersion, steps[k].row.name) ==> steps[k].row in targets
  {
    var name := steps[k].row.name;
    assert RightAction(steps, |steps|, steps[k], inVersion) && Called(steps, |steps|, targets, steps[k]);
    if Claimed(steps, |steps|, name) {
      var j :| 0 <= j < |steps| && Undoes(steps[j], name);
      assert steps[j].row in rows && RightAction(steps, |steps|, steps[j], inVersion);
      assert Wanted(rows, inVersion, name);
    }
    if Wanted(rows, inVersion, name) {
      var u :| u in rows && PlanRevert(u, inVersion) == UndoRename && Old(u) == Some(name);
      var j := RenameIsPlanned(rows, targets, inVersion, steps, u);
      NotRestored(rows, targets, inVersion, steps, j, k);
    }
  }

  lemma {:induction false} UnplannedOutcome(
    rows: seq<Tracked>, targets: seq<Tracked>, version: map<string, Perm>, steps: seq<Step>,
    v0: map<nat, Slot>, v: map<nat, Slot>, d0: map<string, int>, d: map<string, int>, t: Tracked)
    requires Table(rows) && Loaded(v0, rows) && AllTargets(rows, targets, d0)
             && Planned(rows, targets, version.Keys, steps)
    requires PassTo(v0, v, steps, |steps|, Reverter(version)) && WrittenTo(d0 - ClearedNames(steps), d, steps, |steps|)
    requires t in rows && !PlannedFor(steps, t) && (!NeedsRevert(t, t.name !in d0) ==> d0[t.name] == t.row.rid)
    ensures EndsAs(rows, version, t, NeedsRevert(t, t.name !in d0), v, d)
  {
    assert t !in targets;
    forall k {:trigger steps[k]} | 0 <= k < |steps| ensures steps[k].row.id != t.id && steps[k].row.name != t.name {
      assert steps[k].row in rows;
      if steps[k].row.id == t.id || steps[k].row.name == t.name {
        SameId(rows, steps[k].row, t);
      }
    }
    assert Untouched(steps, t.id) && Get(v, t.id) == Get(v0, t.id);
    if Wanted(rows, version.Keys, t.name) {
      var u :| u in rows && PlanRevert(u, version.Keys) == UndoRename && Old(u) == Some(t.name);
      var j := RenameIsPlanned(rows, targets, version.Keys, steps, u);
      NotUntouched(rows, targets, version.Keys, steps, j, t);
    }
    if HomeOf(steps, |steps|, t.name) {
      var k :| 0 <= k < |steps| && Returns(steps[k].action) && Home(steps[k]) == t.name;
      NotUntouched(rows, targets, version.Keys, steps, k, t);
    }
    assert t.name !in ClearedNames(steps);
    assert t.name in d <==> t.name in d0 - ClearedNames(steps);
  }

  lemma {:induction false} StillTabled(
    v0: map<nat, Slot>, v: map<nat, Slot>, steps: seq<Step>, i: nat, effect: (Step, Option<Slot>) -> Option<Slot>)
    requires PassTo(v0, v, steps, i, effect) && Tabled(v0, steps) && i < |steps|
    ensures steps[i].row.id in v
  {
    assert Get(v, steps[i].row.id) == Get(v0, steps[i].row.id);
  }

  /** A renamed row waits at its placeholder for its turn. */
  lemma {:induction false} RenamedStands(
    v0: map<nat, Slot>, rows: seq<Tracked>, targets: seq<Tracked>, inVersion: set<string>, steps: seq<Step>,
    v1: map<nat, Slot>, v: map<nat, Slot>, n: nat)
    requires Loaded(v0, rows) && Planned(rows, targets, inVersion, steps)
    requires PassTo(v0, v1, steps, |steps|, Vacate) && PassTo(v1, v, steps, n, TakeBack)
    requires n < |steps| && steps[n].action == UndoRename
    ensures steps[n].row.id in v && Old(steps[n].row).Some?
  {
    HasOld(rows, targets, inVersion, steps, n);
    assert Get(v1, steps[n].row.id) == Vacate(steps[n], Get(v0, steps[n].row.id));
    assert Get(v, steps[n].row.id) == Get(v1, steps[n].row.id);
  }

  /** If the name was free, no earlier rename has gone back to it. */
  lemma {:induction false} NoEarlierRename(
    v0: map<nat, Slot>, rows: seq<Tracked>, targets: seq<Tracked>, inVersion: set<string>, steps: seq<Step>,
    v1: map<nat, Slot>, v: map<nat, Slot>, n: nat)
    requires Loaded(v0, rows) && Planned(rows, targets, inVersion, steps)
    requires PassTo(v0, v1, steps, |steps|, Vacate) && PassTo(v1, v, steps, n, TakeBack)
    requires n < |steps| && steps[n].action == UndoRename && OldNamesDifferTo(steps, n)
    requires forall j :: j in v && j != steps[n].row.id ==> v[j].place != At(Home(steps[n]))
    ensures OldNamesDifferTo(steps, n + 1)
  {
    HasOld(rows, targets, inVersion, steps, n);
    forall j | 0 <= j < n && steps[j].action == UndoRename ensures Old(steps[j].row) != Old(steps[n].row) {
      HasOld(rows, targets, inVersion, steps, j);
      var id := steps[j].row.id;
      assert Get(v1, id) == Vacate(steps[j], Get(v0, id));
      assert Get(v, id) == TakeBack(steps[j], Get(v1, id));
      assert id != steps[n].row.id;
      assert v[id].place == At(Home(steps[j]));
    }
  }

  // ------------------------------------------------------- outcomes, told by the columns

  /** The row or the disk shows a change. */
  ghost predicate Touched(t: Tracked, disk: map<string, int>) {
    t.name !in disk || t.row.chnged > 0 || t.row.deleted || t.row.mrid != t.row.rid || !NeverLeft(t)
  }

  /** A committed row, its content back and nothing pending. */
  ghost predicate Clean(r: Row, rid: int, perm: Perm) {
    r == Row(rid, rid, 0, false, perm == Executable, perm == Symlink, r.origname)
  }

  /**
   * What a revert of everything makes of row t, told by its columns and the names of the
   * version: a pending add leaves the table and its file alone, a renamed file goes back,
   * a file of the version is restored, and any other file that shows a change is removed
   * with its row. A name that a renamed file goes back to is left to that.
   */
  ghost predicate AsRecorded(
    rows: seq<Tracked>, version: map<string, Perm>, t: Tracked, d0: map<string, int>,
    vfile: map<nat, Slot>, disk: map<string, int>)
  {
    var sought := exists u :: u in rows && GoesBack(u, version.Keys, t.name);
    && (t.row.rid == 0 ==>
          t.id !in vfile && (!sought ==> SameAt(d0, disk, t.name)))
    && (forall name :: GoesBack(t, version.Keys, name) ==>
          && t.id in vfile && vfile[t.id].place == At(name) && vfile[t.id].row.origname == None
          && Clean(vfile[t.id].row, t.row.rid, PermOf(version, name))
          && name in disk && disk[name] == t.row.rid
          && (!sought ==> t.name !in disk))
    && (t.row.rid != 0 && NeverLeft(t) && t.name in version && sought ==> t.id !in vfile)
    && (t.row.rid != 0 && NeverLeft(t) && t.name in version && !sought ==>
          && t.id in vfile && vfile[t.id].place == At(t.name) && vfile[t.id].row.origname == t.row.origname
          && t.name in disk && disk[t.name] == t.row.rid
          && (if Touched(t, d0) then Clean(vfile[t.id].row, t.row.rid, PermOf(version, t.name))
              else vfile[t.id].row == t.row))
    && (t.row.rid != 0 && t.name !in version && (forall name :: !GoesBack(t, version.Keys, name)) ==>
          if Touched(t, d0) then t.id !in vfile && (!sought ==> t.name !in disk)
          else !sought ==> t.id in vfile && vfile[t.id] == Slot(At(t.name), t.row) && SameAt(d0, disk, t.name))
  }

  lemma {:induction false} DifferAsRecorded(rows: seq<Tracked>, inVersion: set<string>)
    ensures RenamesDiffer(rows, inVersion) <==> forall t, u, name ::
              t in rows && u in rows && GoesBack(t, inVersion, name) && GoesBack(u, inVersion, name) ==> t == u
  {
    if RenamesDiffer(rows, inVersion) {
      forall t, u, name | t in rows && u in rows && GoesBack(t, inVersion, name) && GoesBack(u, inVersion, name)
        ensures t == u
      {
        GoesBackAsPlanned(t, inVersion, name);
        GoesBackAsPlanned(u, inVersion, name);
      }
    } else {
      var t, u :| t in rows && u in rows && t != u && Old(t) == Old(u)
                  && PlanRevert(t, inVersion) == UndoRename && PlanRevert(u, inVersion) == UndoRename;
      GoesBackAsPlanned(t, inVersion, Old(t).value);
      GoesBackAsPlanned(u, inVersion, Old(t).value);
    }
  }

  lemma {:induction false} WantedAsRecorded(rows: seq<Tracked>, inVersion: set<string>, name: string)
    ensures Wanted(rows, inVersion, name) <==> exists u :: u in rows && GoesBack(u, inVersion, name)
  {
    if u :| u in rows && GoesBack(u, inVersion, name) {
      GoesBackAsPlanned(u, inVersion, name);
    }
    if u :| u in rows && PlanRevert(u, inVersion) == UndoRename && Old(u) == Some(name) {
      GoesBackAsPlanned(u, inVersion, name);
    }
  }

  lemma {:induction false} OutcomeAsRecorded(
    rows: seq<Tracked>, version: map<string, Perm>, t: Tracked, d0: map<string, int>,
    vfile: map<nat, Slot>, disk: map<string, int>)
    requires EndsAs(rows, version, t, NeedsRevert(t, t.name !in d0), vfile, disk)
    requires FileEndsAs(rows, version, t, NeedsRevert(t, t.name !in d0), d0, disk)
    requires !NeedsRevert(t, t.name !in d0) ==> d0[t.name] == t.row.rid
    ensures AsRecorded(rows, version, t, d0, vfile, disk)
  {
    WantedAsRecorded(rows, version.Keys, t.name);
    forall name ensures GoesBack(t, version.Keys, name) <==>
                          PlanRevert(t, version.Keys) == UndoRename && Old(t) == Some(name)
    {
      GoesBackAsPlanned(t, version.Keys, name);
    }
  }

  // --------------------------------------------------------------- rows and their origin

  /** The name a row goes by in the version, as far as the row tells. */
  function Origin(t: Tracked): string {
    if Old(t).Some? then Old(t).value else t.name
  }

  /** Row t is back under a name with its committed content. */
  ghost predicate BackAt(vfile: map<nat, Slot>, disk: map<string, int>, t: Tracked, home: string) {
    t.id in vfile && vfile[t.id].place == At(home) && home in disk && disk[home] == t.row.rid
  }

  /**
   * After revert-all, the row of a committed file is back under its name in the version
   * exactly when the row tells that name as its origin, and no renamed row claims a name
   * it never left.
   */
  lemma {:induction false} BackHomeExactly(
    rows: seq<Tracked>, version: map<string, Perm>, t: Tracked, needs: bool,
    vfile: map<nat, Slot>, disk: map<string, int>, home: string)
    requires EndsAs(rows, version, t, needs, vfile, disk) && t.row.rid != 0 && home in version
    ensures BackAt(vfile, disk, t, home) <==>
              Origin(t) == home && (Old(t) == None ==> !Wanted(rows, version.Keys, home))
  {
  }

  /** A committed row whose recorded origin the version does not have, nor its name, is lost. */
  lemma {:induction false} UnknownOriginLost(
    rows: seq<Tracked>, version: map<string, Perm>, t: Tracked, vfile: map<nat, Slot>, disk: map<string, int>)
    requires EndsAs(rows, version, t, true, vfile, disk) && t.row.rid != 0
    requires Origin(t) !in version && t.name !in version
    ensures t.id !in vfile
  {
  }

  /**
   * A row renamed from a to b to c records b: with a in the version, revert-all deletes
   * the row and removes the file.
   */
  lemma {:induction false} TwiceRenamedIsLost(
    rid: int, vfile: map<nat, Slot>, disk: map<string, int>, d0: map<string, int>)
    requires rid > 0 && (forall id :: id in vfile ==> id == 1)
    requires EndsAs([TwiceRenamed(rid)], ONLY_A, TwiceRenamed(rid), true, vfile, disk)
    requires FileEndsAs([TwiceRenamed(rid)], ONLY_A, TwiceRenamed(rid), true, d0, disk)
    ensures PlanRevert(TwiceRenamed(rid), ONLY_A.Keys) == RemoveMergeAdded && NeedsRevert(TwiceRenamed(rid), false)
    ensures vfile == map[] && "c" !in disk
  {
    var t := TwiceRenamed(rid);
    LettersDiffer();
    assert Old(t) == Some("b") && ONLY_A.Keys == {"a"};
    assert PlanRevert(t, ONLY_A.Keys) == RemoveMergeAdded;
    assert !Wanted([t], ONLY_A.Keys, "c");
    assert vfile.Keys == {};
  }

  /** Reverting all of such a checkout empties it: the file is gone as c and does not come back as a. */
  method RevertTwiceRenamed(c: Checkout, rid: int)
    requires rid > 0 && c.version == ONLY_A && c.vfile == map[1 := Slot(At("c"), TwiceRenamed(rid).row)]
    requires "a" !in c.disk && "c" in c.disk
    modifies c
    ensures c.vfile == map[] && "a" !in c.disk && "c" !in c.disk
  {
    var rows := [TwiceRenamed(rid)];
    LettersDiffer();
    assert rows[0] in rows;
    assert PlanRevert(rows[0], ONLY_A.Keys) == RemoveMergeAdded;
    assert RenamesDiffer(rows, ONLY_A.Keys) && !Wanted(rows, ONLY_A.Keys, "a") && !HasRow(rows, "a");
    ghost var d0 := c.disk;
    var ok := c.RevertAll(rows);
    TwiceRenamedIsLost(rid, c.vfile, c.disk, d0);
  }

  const ONLY_A: map<string, Perm> := map["a" := Plain]

  /** The row of the file a, renamed to b and then to c. */
  function TwiceRenamed(rid: int): Tracked {
    Tracked(1, "c", Row(rid, rid, 1, false, false, false, Some("b")))
  }

  lemma {:induction false} LettersDiffer()
    ensures "a" != "b" && "a" != "c" && "b" != "c"
  {
    assert "a"[0] == 'a' && "b"[0] == 'b' && "c"[0] == 'c';
  }

  /** Two rows renamed from one name make revert-all fail. */
  lemma {:induction false} OneOriginTwice(r: Row, q: Row)
    requires r.rid != 0 && q.rid != 0
    ensures var rows := [Tracked(1, "b", r.(origname := Some("a"))), Tracked(2, "c", q.(origname := Some("a")))];
            Table(rows) && !RenamesDiffer(rows, {"a"})
  {
    var rows := [Tracked(1, "b", r.(origname := Some("a"))), Tracked(2, "c", q.(origname := Some("a")))];
    LettersDiffer();
    assert rows[0] in rows && rows[1] in rows;
    assert Old(rows[0]) == Some("a") && Old(rows[1]) == Some("a");
    assert PlanRevert(rows[0], {"a"}) == UndoRename && PlanRevert(rows[1], {"a"}) == UndoRename;
  }
}
