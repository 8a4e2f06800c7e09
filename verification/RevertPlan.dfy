/** Planning a revert: which rows it touches and what it does to each, before anything changes. */
module RevertPlan {
  import opened Basics
  import opened SparseRecord

  /** A row of the file table with its id and name. */
  datatype Tracked = Tracked(id: nat, name: string, row: Row)

  datatype Action =
    | Restore           // the committed content comes back under the row's name
    | Unmanage          // a pending add leaves the table, its file stays
    | RemoveMergeAdded  // a file the version lacks goes, with its row
    | UndoRename        // the committed content comes back under the old name
    | Displace          // the row holds a name a rename goes back to, and leaves the table

  datatype Step = Step(row: Tracked, action: Action)

  function Old(t: Tracked): Option<string> {
    RenamedFrom(t.name, t.row)
  }

  function PlanRevert(t: Tracked, inVersion: set<string>): Action {
    if t.row.rid == 0 then Unmanage
    else if t.name !in inVersion && !(Old(t).Some? && Old(t).value in inVersion) then RemoveMergeAdded
    else if Old(t).Some? then UndoRename
    else Restore
  }

  /** Revert-all restores a row that is changed in any way, or whose file is missing. */
  predicate NeedsRevert(t: Tracked, missing: bool) {
    missing || t.row.rid == 0 || t.row.chnged > 0 || t.row.deleted || Old(t).Some? || PendingMerge(t.row)
  }

  /** The row is a committed file renamed from name, and the version has one of its two names. */
  ghost predicate GoesBack(t: Tracked, inVersion: set<string>, name: string) {
    && t.row.rid != 0 && t.row.origname == Some(name) && name != t.name && name != ""
    && (name in inVersion || t.name in inVersion)
  }

  /** The row was not renamed. */
  ghost predicate NeverLeft(t: Tracked) {
    t.row.origname == None || t.row.origname == Some(t.name) || t.row.origname == Some("")
  }

  lemma {:induction false} GoesBackAsPlanned(t: Tracked, inVersion: set<string>, name: string)
    ensures GoesBack(t, inVersion, name) <==> PlanRevert(t, inVersion) == UndoRename && Old(t) == Some(name)
  {
  }

  /** What is planned for a row, told by its columns and the names of the version. */
  ghost predicate PlannedAsRecorded(s: Step, inVersion: set<string>) {
    && (s.action == Unmanage <==> s.row.row.rid == 0)
    && (s.action == UndoRename <==> exists name :: GoesBack(s.row, inVersion, name))
    && (s.action == RemoveMergeAdded <==>
          s.row.row.rid != 0 && s.row.name !in inVersion && forall name :: !GoesBack(s.row, inVersion, name))
    && (s.action == Restore || s.action == Displace <==>
          s.row.row.rid != 0 && s.row.name in inVersion && NeverLeft(s.row))
  }

  lemma {:induction false} AsPlanned(s: Step, inVersion: set<string>)
    requires s.action == PlanRevert(s.row, inVersion)
             || (s.action == Displace && PlanRevert(s.row, inVersion) == Restore)
    ensures PlannedAsRecorded(s, inVersion)
  {
    if Old(s.row).Some? {
      GoesBackAsPlanned(s.row, inVersion, Old(s.row).value);
    }
    forall name ensures GoesBack(s.row, inVersion, name) ==>
                          s.action == UndoRename && PlanRevert(s.row, inVersion) == UndoRename
    {
      GoesBackAsPlanned(s.row, inVersion, name);
    }
  }

  /** One row per id and per name. */
  ghost predicate Table(rows: seq<Tracked>) {
    forall i, j {:trigger Apart(rows, i, j)} :: 0 <= i < j < |rows| ==> Apart(rows, i, j)
  }

  ghost predicate Apart(rows: seq<Tracked>, i: int, j: int)
    requires 0 <= i < |rows| && 0 <= j < |rows|
  {
    rows[i].id != rows[j].id && rows[i].name != rows[j].name
  }

  ghost predicate StepIdsDiffer(steps: seq<Step>) {
    forall j, k :: 0 <= j < k < |steps| ==> steps[j].row.id != steps[k].row.id
  }

  ghost predicate Undoes(s: Step, name: string) {
    s.action == UndoRename && Old(s.row) == Some(name)
  }

  /** Some rename of the first n steps goes back to name. */
  ghost predicate Claimed(steps: seq<Step>, n: nat, name: string) {
    exists j :: 0 <= j < n && j < |steps| && Undoes(steps[j], name)
  }

  ghost predicate PlannedFor(steps: seq<Step>, t: Tracked) {
    exists k :: 0 <= k < |steps| && steps[k].row == t
  }

  /** The row of steps that has t, if any, is none that stays in place. */
  ghost predicate MadeWay(steps: seq<Step>, t: Tracked) {
    exists k :: 0 <= k < |steps| && steps[k].row == t && steps[k].action != Restore
  }

  /** The step does what its row calls for, or drops a row it would restore for a rename that claims its name. */
  ghost predicate RightAction(steps: seq<Step>, n: nat, s: Step, inVersion: set<string>) {
    || s.action == PlanRevert(s.row, inVersion)
    || (s.action == Displace && PlanRevert(s.row, inVersion) == Restore && Claimed(steps, n, s.row.name))
  }

  /** The row is one the revert was asked for, or holds a name a rename goes back to. */
  ghost predicate Called(steps: seq<Step>, n: nat, targets: seq<Tracked>, s: Step) {
    s.row in targets || Claimed(steps, n, s.row.name)
  }

  /** Whatever row holds the name step s goes back to makes way. */
  ghost predicate WayMade(rows: seq<Tracked>, steps: seq<Step>, s: Step) {
    s.action == UndoRename ==> forall t {:trigger MadeWay(steps, t)} :: t in rows && Some(t.name) == Old(s.row) ==>
        MadeWay(steps, t)
  }

  /** A plan with its first n steps' renames looked into. */
  ghost predicate PlannedTo(
    rows: seq<Tracked>, targets: seq<Tracked>, inVersion: set<string>, steps: seq<Step>, n: nat)
  {
    && StepIdsDiffer(steps)
    && (forall t {:trigger PlannedFor(steps, t)} :: t in targets ==> PlannedFor(steps, t))
    && (forall k {:trigger steps[k]} :: 0 <= k < |steps| ==>
        steps[k].row in rows && RightAction(steps, n, steps[k], inVersion) && Called(steps, n, targets, steps[k]))
    && (forall k {:trigger steps[k]} :: 0 <= k < n && k < |steps| ==> WayMade(rows, steps, steps[k]))
  }

  /** Each row planned once, the asked-for ones and those in a rename's way, each with its action. */
  ghost predicate Planned(rows: seq<Tracked>, targets: seq<Tracked>, inVersion: set<string>, steps: seq<Step>) {
    PlannedTo(rows, targets, inVersion, steps, |steps|)
  }

  // ------------------------------------------------------------------- bookkeeping

  /** planned maps the id of each step's row to the step's place. */
  ghost predicate Indexed(steps: seq<Step>, planned: map<nat, nat>) {
    && (forall id {:trigger planned[id]} :: id in planned ==> planned[id] < |steps| && steps[planned[id]].row.id == id)
    && (forall k {:trigger steps[k]} :: 0 <= k < |steps| ==>
        steps[k].row.id in planned && planned[steps[k].row.id] == k)
    && |planned| == |steps|
  }

  ghost function Ids(rows: seq<Tracked>): set<nat> {
    set t | t in rows :: t.id
  }

  lemma {:induction false} IdsBound(rows: seq<Tracked>)
    ensures |Ids(rows)| <= |rows|
  {
    if rows != [] {
      var n := |rows| - 1;
      IdsBound(rows[..n]);
      assert rows == rows[..n] + [rows[n]];
      assert Ids(rows) == Ids(rows[..n]) + {rows[n].id};
    }
  }

  /** Rows planned once each are no more than the rows. */
  lemma {:induction false} NoMoreSteps(rows: seq<Tracked>, steps: seq<Step>, planned: map<nat, nat>)
    requires Indexed(steps, planned) && forall k {:trigger steps[k]} :: 0 <= k < |steps| ==> steps[k].row in rows
    ensures |steps| <= |rows|
  {
    forall id | id in planned.Keys ensures id in Ids(rows) {
      assert planned[id] < |steps|;
      assert steps[planned[id]].row in rows;
    }
    SubsetCard(planned.Keys, Ids(rows));
    IdsBound(rows);
  }

  lemma {:induction false} IndexedDiffer(steps: seq<Step>, planned: map<nat, nat>)
    requires Indexed(steps, planned)
    ensures StepIdsDiffer(steps)
  {
    forall j, k | 0 <= j < k < |steps| ensures steps[j].row.id != steps[k].row.id {
      assert planned[steps[j].row.id] == j && planned[steps[k].row.id] == k;
    }
  }

  lemma {:induction false} IndexedMore(steps: seq<Step>, planned: map<nat, nat>, s: Step)
    requires Indexed(steps, planned) && s.row.id !in planned
    ensures Indexed(steps + [s], planned[s.row.id := |steps|])
  {
    var more, p := steps + [s], planned[s.row.id := |steps|];
    MapGrows(planned, s.row.id, |steps|);
    forall k {:trigger more[k]} | 0 <= k < |more| ensures more[k].row.id in p && p[more[k].row.id] == k {
      assert k < |steps| ==> more[k] == steps[k] && steps[k].row.id in planned;
    }
    forall id {:trigger p[id]} | id in p ensures p[id] < |more| && more[p[id]].row.id == id {
      assert id != s.row.id ==> id in planned && planned[id] < |steps| && more[planned[id]] == steps[planned[id]];
    }
  }

  lemma {:induction false} MapGrows(m: map<nat, nat>, id: nat, v: nat)
    requires id !in m
    ensures |m[id := v]| == |m| + 1
  {
    assert m[id := v].Keys == m.Keys + {id};
  }

  // ------------------------------------------------------------------ plan changes

  lemma {:induction false} ClaimedMore(steps: seq<Step>, n: nat, more: seq<Step>, m: nat, name: string)
    requires Claimed(steps, n, name) && n <= m && |steps| <= |more|
    requires forall j {:trigger more[j]} :: 0 <= j < |steps| && steps[j].action == UndoRename ==> more[j] == steps[j]
    ensures Claimed(more, m, name)
  {
    var j :| 0 <= j < n && j < |steps| && Undoes(steps[j], name);
    assert Undoes(more[j], name);
  }

  lemma {:induction false} MadeWayMore(steps: seq<Step>, more: seq<Step>, t: Tracked)
    requires MadeWay(steps, t) && |steps| <= |more|
    requires forall j {:trigger more[j]} :: 0 <= j < |steps| && steps[j].action != Restore ==> more[j] == steps[j]
    ensures MadeWay(more, t)
  {
    var k :| 0 <= k < |steps| && steps[k].row == t && steps[k].action != Restore;
    assert more[k].row == t && more[k].action != Restore;
  }

  /** Adding a row's step, or turning a restore into a displacement, keeps what was planned. */
  ghost predicate Extends(steps: seq<Step>, more: seq<Step>) {
    && |steps| <= |more|
    && (forall j {:trigger more[j]} :: 0 <= j < |steps| ==>
        more[j].row == steps[j].row && (steps[j].action != Restore ==> more[j] == steps[j]))
  }

  lemma {:induction false} StepStays(
    rows: seq<Tracked>, targets: seq<Tracked>, inVersion: set<string>, steps: seq<Step>, n: nat, more: seq<Step>,
    m: nat, k: nat)
    requires PlannedTo(rows, targets, inVersion, steps, n) && Extends(steps, more) && n <= m && k < |steps|
    ensures steps[k].row in rows && Called(more, m, targets, steps[k])
    ensures RightAction(more, m, steps[k], inVersion)
    ensures k < n ==> WayMade(rows, more, steps[k])
  {
    assert steps[k].row in rows && RightAction(steps, n, steps[k], inVersion) && Called(steps, n, targets, steps[k]);
    if Claimed(steps, n, steps[k].row.name) {
      ClaimedMore(steps, n, more, m, steps[k].row.name);
    }
    if k < n && steps[k].action == UndoRename {
      assert WayMade(rows, steps, steps[k]);
      forall t | t in rows && Some(t.name) == Old(steps[k].row) ensures MadeWay(more, t) {
        MadeWayMore(steps, more, t);
      }
    }
  }

  lemma {:induction false} TargetsStay(steps: seq<Step>, targets: seq<Tracked>, more: seq<Step>)
    requires (forall t :: t in targets ==> PlannedFor(steps, t)) && Extends(steps, more)
    ensures forall t :: t in targets ==> PlannedFor(more, t)
  {
    forall t | t in targets ensures PlannedFor(more, t) {
      var k :| 0 <= k < |steps| && steps[k].row == t;
      assert more[k].row == t;
    }
  }

  // ---------------------------------------------------------------------- planning

  /** The first steps: one for each row asked for. */
  method PlanTargets(rows: seq<Tracked>, targets: seq<Tracked>, inVersion: set<string>)
    returns (steps: seq<Step>, planned: map<nat, nat>)
    requires Table(rows) && forall t :: t in targets ==> t in rows
    ensures Indexed(steps, planned) && PlannedTo(rows, targets, inVersion, steps, 0)
  {
    steps, planned := [], map[];
    for i := 0 to |targets|
      invariant Indexed(steps, planned)
      invariant forall t :: t in targets[..i] ==> PlannedFor(steps, t)
      invariant forall k {:trigger steps[k]} :: 0 <= k < |steps| ==>
                  steps[k].row in targets && steps[k].action == PlanRevert(steps[k].row, inVersion)
    {
      var t := targets[i];
      assert targets[..i + 1] == targets[..i] + [t];
      if t.id !in planned {
        var s := Step(t, PlanRevert(t, inVersion));
        IndexedMore(steps, planned, s);
        TargetsStay(steps, targets[..i], steps + [s]);
        planned := planned[t.id := |steps|];
        steps := steps + [s];
        assert steps[|steps| - 1].row == t;
      } else {
        assert steps[planned[t.id]].row in rows;
        SameId(rows, steps[planned[t.id]].row, t);
      }
    }
    assert targets[..|targets|] == targets;
    IndexedDiffer(steps, planned);
  }

  lemma {:induction false} SameId(rows: seq<Tracked>, a: Tracked, b: Tracked)
    requires Table(rows) && a in rows && b in rows && (a.id == b.id || a.name == b.name)
    ensures a == b
  {
    var i :| 0 <= i < |rows| && rows[i] == a;
    var j :| 0 <= j < |rows| && rows[j] == b;
    assert i < j ==> Apart(rows, i, j);
    assert j < i ==> Apart(rows, j, i);
  }

  method ByPath(rows: seq<Tracked>) returns (byPath: map<string, Tracked>)
    requires Table(rows)
    ensures forall n {:trigger byPath[n]} :: n in byPath ==> byPath[n] in rows && byPath[n].name == n
    ensures forall t :: t in rows ==> t.name in byPath
  {
    byPath := map[];
    for i := 0 to |rows|
      invariant forall n {:trigger byPath[n]} :: n in byPath ==> byPath[n] in rows && byPath[n].name == n
      invariant forall k :: 0 <= k < i ==> rows[k].name in byPath
    {
      byPath := byPath[rows[i].name := rows[i]];
    }
  }

  lemma {:induction false} LookedInto(
    rows: seq<Tracked>, targets: seq<Tracked>, inVersion: set<string>, steps: seq<Step>, n: nat, more: seq<Step>)
    requires PlannedTo(rows, targets, inVersion, steps, n) && n < |steps| && Extends(steps, more) && StepIdsDiffer(more)
    requires more[n] == steps[n] && WayMade(rows, more, more[n])
    requires forall k {:trigger more[k]} :: |steps| <= k < |more| ==>
               more[k].row in rows && RightAction(more, n + 1, more[k], inVersion)
               && Called(more, n + 1, targets, more[k])
    requires forall k {:trigger more[k]} :: 0 <= k < |steps| && more[k] != steps[k] ==>
      more[k] == Step(steps[k].row, Displace) && PlanRevert(steps[k].row, inVersion) == Restore
        && Claimed(more, n + 1, steps[k].row.name)
    ensures PlannedTo(rows, targets, inVersion, more, n + 1)
  {
    TargetsStay(steps, targets, more);
    forall k {:trigger more[k]} | 0 <= k < |more|
      ensures more[k].row in rows && RightAction(more, n + 1, more[k], inVersion)
              && Called(more, n + 1, targets, more[k])
    {
      if k < |steps| {
        StepStays(rows, targets, inVersion, steps, n, more, n + 1, k);
      }
    }
    forall k {:trigger more[k]} | 0 <= k < n + 1 && k < |more| ensures WayMade(rows, more, more[k]) {
      if k < n {
        StepStays(rows, targets, inVersion, steps, n, more, n + 1, k);
      }
    }
  }

  /**
   * The plan for the rows asked for: every row whose name a rename goes back to
   * is pulled in, and makes way for the rename.
   */
  method PlanRevertSteps(rows: seq<Tracked>, targets: seq<Tracked>, inVersion: set<string>) returns (steps: seq<Step>)
    requires Table(rows) && forall t :: t in targets ==> t in rows
    ensures Planned(rows, targets, inVersion, steps) && |steps| <= |rows|
    ensures forall k {:trigger steps[k]} :: 0 <= k < |steps| ==> PlannedAsRecorded(steps[k], inVersion)
  {
    var byPath := ByPath(rows);
    var planned;
    steps, planned := PlanTargets(rows, targets, inVersion);
    FewEnough(rows, targets, inVersion, steps, 0, planned);
    var i := 0;
    while i < |steps|
      invariant i <= |steps| <= |rows|
      invariant Indexed(steps, planned) && PlannedTo(rows, targets, inVersion, steps, i)
      decreases |rows| - |steps|, |steps| - i
    {
      steps, planned := LookInto(rows, targets, inVersion, steps, planned, i, byPath);
      i := i + 1;
    }
    AllAsPlanned(rows, targets, inVersion, steps);
  }

  lemma {:induction false} AllAsPlanned(
    rows: seq<Tracked>, targets: seq<Tracked>, inVersion: set<string>, steps: seq<Step>)
    requires Planned(rows, targets, inVersion, steps)
    ensures forall k {:trigger steps[k]} :: 0 <= k < |steps| ==> PlannedAsRecorded(steps[k], inVersion)
  {
    forall k {:trigger steps[k]} | 0 <= k < |steps| ensures PlannedAsRecorded(steps[k], inVersion) {
      AsPlanned(steps[k], inVersion);
    }
  }

  /** Step i's rename, if it is one, pulls in the row holding its old name. */
  method LookInto(
    rows: seq<Tracked>, ghost targets: seq<Tracked>, inVersion: set<string>, steps: seq<Step>, planned: map<nat, nat>,
    i: nat, byPath: map<string, Tracked>)
    returns (more: seq<Step>, planned': map<nat, nat>)
    requires Table(rows) && Indexed(steps, planned) && PlannedTo(rows, targets, inVersion, steps, i)
             && i < |steps| <= |rows|
    requires forall n {:trigger byPath[n]} :: n in byPath ==> byPath[n] in rows && byPath[n].name == n
    requires forall t :: t in rows ==> t.name in byPath
    ensures Indexed(more, planned') && PlannedTo(rows, targets, inVersion, more, i + 1) && |steps| <= |more| <= |rows|
  {
    var name := Old(steps[i].row);
    if steps[i].action == UndoRename && name.Some? && name.value in byPath {
      more, planned' := MakeWay(rows, targets, inVersion, steps, planned, i, byPath[name.value]);
      FewEnough(rows, targets, inVersion, more, i + 1, planned');
    } else {
      more, planned' := steps, planned;
      NobodyThere(rows, steps, i, byPath);
      LookedInto(rows, targets, inVersion, steps, i, steps);
    }
  }

  lemma {:induction false} FewEnough(
    rows: seq<Tracked>, targets: seq<Tracked>, inVersion: set<string>, steps: seq<Step>, n: nat,
    planned: map<nat, nat>)
    requires Indexed(steps, planned) && PlannedTo(rows, targets, inVersion, steps, n)
    ensures |steps| <= |rows|
  {
    NoMoreSteps(rows, steps, planned);
  }

  lemma {:induction false} NobodyThere(rows: seq<Tracked>, steps: seq<Step>, i: nat, byPath: map<string, Tracked>)
    requires i < |steps|
             && (steps[i].action == UndoRename && Old(steps[i].row).Some? ==> Old(steps[i].row).value !in byPath)
    requires forall t :: t in rows ==> t.name in byPath
    ensures WayMade(rows, steps, steps[i])
  {
  }

  /** The row holding the name step i goes back to is planned if it was not, and does not stay. */
  method MakeWay(
    rows: seq<Tracked>, ghost targets: seq<Tracked>, inVersion: set<string>, steps: seq<Step>, planned: map<nat, nat>,
    i: nat, holder: Tracked)
    returns (more: seq<Step>, planned': map<nat, nat>)
    requires Table(rows) && Indexed(steps, planned) && PlannedTo(rows, targets, inVersion, steps, i)
    requires i < |steps| && holder in rows && Undoes(steps[i], holder.name)
    ensures Indexed(more, planned') && PlannedTo(rows, targets, inVersion, more, i + 1) && |more| >= |steps|
  {
    more, planned' := steps, planned;
    if holder.id !in planned {
      IndexedMore(steps, planned, Step(holder, PlanRevert(holder, inVersion)));
      planned' := planned[holder.id := |steps|];
      more := steps + [Step(holder, PlanRevert(holder, inVersion))];
    }
    var j := planned'[holder.id];
    HolderAt(rows, targets, inVersion, steps, i, more, j, holder);
    if more[j].action == Restore {
      HolderDisplaced(rows, targets, inVersion, steps, i, more, planned', j, holder);
      more := more[j := Step(holder, Displace)];
    } else {
      HolderGoes(rows, targets, inVersion, steps, i, more, planned', j, holder);
    }
  }

  /** The plan with the holder's step appended if it had none. */
  ghost predicate Has(steps: seq<Step>, more: seq<Step>, inVersion: set<string>, holder: Tracked) {
    more == steps || more == steps + [Step(holder, PlanRevert(holder, inVersion))]
  }

  lemma {:induction false} HolderGoes(
    rows: seq<Tracked>, targets: seq<Tracked>, inVersion: set<string>, steps: seq<Step>, n: nat, more: seq<Step>,
    planned: map<nat, nat>, j: nat, holder: Tracked)
    requires Table(rows) && PlannedTo(rows, targets, inVersion, steps, n) && Has(steps, more, inVersion, holder)
             && Indexed(more, planned)
    requires n < |steps| && Undoes(steps[n], holder.name) && holder in rows
    requires j < |more| && more[j].row == holder && more[j].action != Restore
    ensures PlannedTo(rows, targets, inVersion, more, n + 1)
  {
    IndexedDiffer(more, planned);
    HolderMadeWay(rows, more, n, j, holder);
    LookedInto(rows, targets, inVersion, steps, n, more);
  }

  lemma {:induction false} HolderDisplaced(
    rows: seq<Tracked>, targets: seq<Tracked>, inVersion: set<string>, steps: seq<Step>, n: nat, more: seq<Step>,
    planned: map<nat, nat>, j: nat, holder: Tracked)
    requires Table(rows) && PlannedTo(rows, targets, inVersion, steps, n) && Has(steps, more, inVersion, holder)
             && Indexed(more, planned)
    requires n < |steps| && Undoes(steps[n], holder.name) && holder in rows
    requires j < |more| && more[j] == Step(holder, Restore) && PlanRevert(holder, inVersion) == Restore
    ensures PlannedTo(rows, targets, inVersion, more[j := Step(holder, Displace)], n + 1)
    ensures Indexed(more[j := Step(holder, Displace)], planned)
  {
    var last := more[j := Step(holder, Displace)];
    IndexedStill(more, planned, j, Step(holder, Displace));
    IndexedDiffer(last, planned);
    HolderMadeWay(rows, last, n, j, holder);
    DisplacedOnly(rows, targets, inVersion, steps, n, more, j, holder, last);
    LookedInto(rows, targets, inVersion, steps, n, last);
  }

  lemma {:induction false} IndexedStill(steps: seq<Step>, planned: map<nat, nat>, j: nat, s: Step)
    requires Indexed(steps, planned) && j < |steps| && s.row == steps[j].row
    ensures Indexed(steps[j := s], planned)
  {
  }

  lemma {:induction false} DisplacedOnly(
    rows: seq<Tracked>, targets: seq<Tracked>, inVersion: set<string>, steps: seq<Step>, n: nat, more: seq<Step>,
    j: nat, holder: Tracked, last: seq<Step>)
    requires Has(steps, more, inVersion, holder) && n < |steps| && steps[n].action == UndoRename && holder in rows
    requires j < |more| && more[j] == Step(holder, Restore) && PlanRevert(holder, inVersion) == Restore
    requires last == more[j := Step(holder, Displace)] && Claimed(last, n + 1, holder.name)
    ensures Extends(steps, last) && last[n] == steps[n]
    ensures forall k {:trigger last[k]} :: |steps| <= k < |last| ==>
              last[k].row in rows && RightAction(last, n + 1, last[k], inVersion)
              && Called(last, n + 1, targets, last[k])
    ensures forall k {:trigger last[k]} :: 0 <= k < |steps| && last[k] != steps[k] ==>
      last[k] == Step(steps[k].row, Displace) && PlanRevert(steps[k].row, inVersion) == Restore
        && Claimed(last, n + 1, steps[k].row.name)
  {
  }

  /** The holder's step, found or just added, is the holder's own, and a restore only if it should be. */
  lemma {:induction false} HolderAt(
    rows: seq<Tracked>, targets: seq<Tracked>, inVersion: set<string>, steps: seq<Step>, n: nat, more: seq<Step>,
    j: nat, holder: Tracked)
    requires Table(rows) && PlannedTo(rows, targets, inVersion, steps, n) && j < |more| && holder in rows
    requires n < |steps| && Undoes(steps[n], holder.name)
    requires j < |steps| ==> more[j] == steps[j] && steps[j].row.id == holder.id
    requires j >= |steps| ==> more[j] == Step(holder, PlanRevert(holder, inVersion))
    ensures more[j].row == holder
    ensures more[j].action == Restore ==> PlanRevert(holder, inVersion) == Restore
  {
    if j < |steps| {
      assert steps[j].row in rows && RightAction(steps, n, steps[j], inVersion);
      SameId(rows, steps[j].row, holder);
    }
  }

  lemma {:induction false} HolderMadeWay(rows: seq<Tracked>, more: seq<Step>, i: nat, j: nat, holder: Tracked)
    requires Table(rows) && holder in rows && i < |more| && Undoes(more[i], holder.name)
    requires j < |more| && more[j].row == holder && more[j].action != Restore
    ensures WayMade(rows, more, more[i]) && Claimed(more, i + 1, holder.name)
  {
    forall t | t in rows && Some(t.name) == Old(more[i].row) ensures MadeWay(more, t) {
      SameId(rows, t, holder);
    }
  }
}
