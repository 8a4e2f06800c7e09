/** Changing a checkout's cone: planning the change, refusing one that would lose work, applying it. */
module SparseCheckout {
  import opened Basics
  import opened PathOrder
  import opened Cone
  import opened ConeBuild
  import opened SparseRecord

  datatype Refusal = LocalChanges(names: seq<string>) | NoContent(name: string) | InTheWay(name: string)

  datatype Plan = Plan(entering: seq<string>, leaving: seq<string>)

  datatype Planned = Planned(plan: Plan) | Refused(why: Refusal)

  datatype ConeChange = ConeChange(materialized: seq<string>, dematerialized: seq<string>)

  datatype Answer = Done(change: ConeChange) | Declined(why: Refusal)

  /** An entering row's file can be written: it has content and nothing else is in its place. */
  ghost predicate CanEnter(record: map<string, Row>, disk: map<string, int>, n: string)
    requires n in record
  {
    record[n].deleted || (record[n].mrid > 0 && (n in disk ==> disk[n] == record[n].mrid))
  }

  /** The change loses no work and overwrites nothing. */
  ghost predicate Acceptable(record: map<string, Row>, disk: map<string, int>, cone: Option<Cone>, next: Option<Cone>) {
    && (forall n :: n in Leaving(record, cone, next) ==> !RowChanged(n, record[n], n !in disk))
    && (forall n :: n in Entering(record, cone, next) ==> CanEnter(record, disk, n))
  }

  method CoversName(cone: Option<Cone>, name: string) returns (covered: bool)
    requires cone.Some? ==> Minimal(cone.value)
    ensures covered == CoveredBy(cone, name)
  {
    if cone == None {
      return true;
    }
    var d := Decide(cone.value, name);
    covered := d.covered;
  }

  /** The names sorted so far: those crossing the boundary, in, out, and out with work at risk. */
  ghost predicate SortedOut(
    record: map<string, Row>, disk: map<string, int>, cone: Option<Cone>, next: Option<Cone>, seen: seq<string>,
    plan: Plan, atRisk: seq<string>)
  {
    && NoRepeats(plan.entering) && NoRepeats(plan.leaving)
    && (forall n :: n in plan.entering <==> n in seen && n in Entering(record, cone, next))
    && (forall n :: n in plan.leaving <==> n in seen && n in Leaving(record, cone, next))
    && (forall n :: n in plan.entering ==> n in record && CanEnter(record, disk, n))
    && (forall n :: n in atRisk <==> n in plan.leaving && n in record && RowChanged(n, record[n], n !in disk))
  }

  /** The written names hold what arrived for them, the removed ones are gone, the rest of the disk is as it was. */
  ghost predicate DiskMoved(
    before: map<string, int>, after: map<string, int>, arrivals: map<string, Arrival>, written: set<string>,
    removed: set<string>)
  {
    && (forall n {:trigger n in after} :: n in after <==>
        n in Written(arrivals, written) || (n in before && n !in removed))
    && (forall n {:trigger after[n]} :: n in after ==>
          (n in Written(arrivals, written) ==> n in arrivals && after[n] == arrivals[n].content)
          && (n !in Written(arrivals, written) ==> n in before && after[n] == before[n]))
  }

  ghost function Written(arrivals: map<string, Arrival>, entering: set<string>): set<string> {
    set n | n in entering && n in arrivals && !arrivals[n].row.deleted
  }

  /** The file table with the entering rows inserted, none of which it had. */
  ghost predicate VfileGrown(
    before: map<string, Row>, after: map<string, Row>, arrivals: map<string, Arrival>, entering: set<string>)
  {
    && (forall n {:trigger n in after} :: n in after <==> n in entering || n in before)
    && (forall n {:trigger after[n]} :: n in after ==>
          (n in before ==> after[n] == before[n]) && (n !in before ==> n in arrivals && after[n] == arrivals[n].row))
  }

  lemma {:induction false} GrowOne(
    before: map<string, Row>, after: map<string, Row>, arrivals: map<string, Arrival>, entering: set<string>, n: string)
    requires VfileGrown(before, after, arrivals, entering) && n in arrivals && n !in before
    ensures VfileGrown(before, after[n := arrivals[n].row], arrivals, entering + {n})
  {
  }

  lemma {:induction false} WriteOne(
    before: map<string, int>, after: map<string, int>, arrivals: map<string, Arrival>, written: set<string>, n: string)
    requires DiskMoved(before, after, arrivals, written, {}) && n in arrivals
    ensures DiskMoved(before, if arrivals[n].row.deleted then after else after[n := arrivals[n].content],
              arrivals, written + {n}, {})
  {
    assert Written(arrivals, written + {n}) ==
           if arrivals[n].row.deleted then Written(arrivals, written) else Written(arrivals, written) + {n};
  }

  lemma {:induction false} RemoveAll(
    before: map<string, int>, after: map<string, int>, arrivals: map<string, Arrival>, written: set<string>,
    removed: set<string>)
    requires DiskMoved(before, after, arrivals, written, {}) && written !! removed
    ensures DiskMoved(before, after - removed, arrivals, written, removed)
  {
  }

  lemma {:induction false} ShrunkIsMoved(
    before: map<string, Row>, grown: map<string, Row>, arrivals: map<string, Arrival>, entering: set<string>,
    leaving: set<string>)
    requires VfileGrown(before, grown, arrivals, entering) && entering <= arrivals.Keys && entering !! leaving
    ensures VfileMoved(before, grown - leaving, arrivals, entering, leaving)
  {
  }

  lemma {:induction false} ElementsMore(list: seq<string>, i: nat)
    requires i < |list|
    ensures Elements(list[..i + 1]) == Elements(list[..i]) + {list[i]} && list[i] in Elements(list)
  {
    assert list[..i + 1] == list[..i] + [list[i]];
  }

  lemma {:induction false} OneLeaves(
    record: map<string, Row>, disk: map<string, int>, cone: Option<Cone>, next: Option<Cone>, seen: seq<string>,
    plan: Plan, atRisk: seq<string>, n: string)
    requires SortedOut(record, disk, cone, next, seen, plan, atRisk) && n in Leaving(record, cone, next) && n !in seen
    ensures SortedOut(record, disk, cone, next, seen + [n], plan.(leaving := plan.leaving + [n]),
              if RowChanged(n, record[n], n !in disk) then atRisk + [n] else atRisk)
  {
  }

  lemma {:induction false} OneEnters(
    record: map<string, Row>, disk: map<string, int>, cone: Option<Cone>, next: Option<Cone>, seen: seq<string>,
    plan: Plan, atRisk: seq<string>, n: string)
    requires SortedOut(record, disk, cone, next, seen, plan, atRisk) && n in Entering(record, cone, next) && n !in seen
    requires CanEnter(record, disk, n)
    ensures SortedOut(record, disk, cone, next, seen + [n], plan.(entering := plan.entering + [n]), atRisk)
  {
  }

  lemma {:induction false} OneStays(
    record: map<string, Row>, disk: map<string, int>, cone: Option<Cone>, next: Option<Cone>, seen: seq<string>,
    plan: Plan, atRisk: seq<string>, n: string)
    requires SortedOut(record, disk, cone, next, seen, plan, atRisk)
    requires n !in Entering(record, cone, next) && n !in Leaving(record, cone, next)
    ensures SortedOut(record, disk, cone, next, seen + [n], plan, atRisk)
  {
  }

  lemma {:induction false} AllSortedOut(
    record: map<string, Row>, disk: map<string, int>, cone: Option<Cone>, next: Option<Cone>, seen: seq<string>,
    plan: Plan, atRisk: seq<string>)
    requires SortedOut(record, disk, cone, next, seen, plan, atRisk) && Elements(seen) == record.Keys
    ensures atRisk == [] <==> Acceptable(record, disk, cone, next)
    ensures forall n :: n in atRisk <==> n in Leaving(record, cone, next) && RowChanged(n, record[n], n !in disk)
    ensures Elements(plan.entering) == Entering(record, cone, next)
    ensures Elements(plan.leaving) == Leaving(record, cone, next)
  {
    forall n | n in record ensures n in seen {
      assert n in Elements(seen);
    }
    if atRisk != [] {
      assert atRisk[0] in atRisk;
    }
  }

  /** One row goes on the plan as one entering or leaving, or is the reason to refuse. */
  method PlanRow(
    rows: map<string, Row>, disk: map<string, int>, cone: Option<Cone>, next: Option<Cone>, ghost seen: seq<string>,
    plan0: Plan, atRisk0: seq<string>, n: string)
    returns (why: Option<Refusal>, plan: Plan, atRisk: seq<string>)
    requires (cone.Some? ==> Minimal(cone.value)) && (next.Some? ==> Minimal(next.value))
    requires SortedOut(rows, disk, cone, next, seen, plan0, atRisk0) && n in rows && n !in seen
    ensures why.Some? <==> n in Entering(rows, cone, next) && !CanEnter(rows, disk, n)
    ensures why.Some? ==> Justified(why.value, rows, disk, cone, next)
    ensures why == None ==> SortedOut(rows, disk, cone, next, seen + [n], plan, atRisk)
  {
    why, plan, atRisk := None, plan0, atRisk0;
    var was := CoversName(cone, n);
    var now := CoversName(next, n);
    if was && !now {
      OneLeaves(rows, disk, cone, next, seen, plan, atRisk, n);
      if RowChanged(n, rows[n], n !in disk) {
        atRisk := atRisk + [n];
      }
      plan := plan.(leaving := plan.leaving + [n]);
    } else if !was && now {
      if !rows[n].deleted {
        if rows[n].mrid <= 0 {
          return Some(NoContent(n)), plan, atRisk;
        }
        if n in disk && disk[n] != rows[n].mrid {
          return Some(InTheWay(n)), plan, atRisk;
        }
      }
      OneEnters(rows, disk, cone, next, seen, plan, atRisk, n);
      plan := plan.(entering := plan.entering + [n]);
    } else {
      OneStays(rows, disk, cone, next, seen, plan, atRisk, n);
    }
  }

  /** The rows sorted by whether they cross the boundary, unless one may not. */
  method PlanRows(rows: map<string, Row>, disk: map<string, int>, cone: Option<Cone>, next: Option<Cone>)
    returns (p: Planned)
    requires (cone.Some? ==> Minimal(cone.value)) && (next.Some? ==> Minimal(next.value))
    ensures p.Planned? <==> Acceptable(rows, disk, cone, next)
    ensures p.Refused? <==> exists n :: Blocks(n, rows, disk, cone, next)
    ensures p.Refused? ==> Justified(p.why, rows, disk, cone, next)
    ensures p.Planned? ==> NoRepeats(p.plan.entering) && NoRepeats(p.plan.leaving)
    ensures p.Planned? ==> Elements(p.plan.entering) == Entering(rows, cone, next)
    ensures p.Planned? ==> Elements(p.plan.leaving) == Leaving(rows, cone, next)
  {
    DeclinedExactly(rows, disk, cone, next);
    var names := ListOf(rows.Keys);
    var plan, atRisk: seq<string> := Plan([], []), [];
    for i := 0 to |names|
      invariant SortedOut(rows, disk, cone, next, names[..i], plan, atRisk)
    {
      assert names[i] in Elements(names);
      assert names[..i + 1] == names[..i] + [names[i]];
      var why;
      why, plan, atRisk := PlanRow(rows, disk, cone, next, names[..i], plan, atRisk, names[i]);
      if why.Some? {
        return Refused(why.value);
      }
    }
    assert names[..|names|] == names;
    AllSortedOut(rows, disk, cone, next, names, plan, atRisk);
    if |atRisk| > 0 {
      ChangesJustified(rows, disk, cone, next, atRisk);
      return Refused(LocalChanges(atRisk));
    }
    p := Planned(plan);
  }

  /** Uncovered files of the version over the rows of the file table. */
  method OverlayBaseline(
    vfile: map<string, Row>, baseline: map<string, FileEntry>, cone: Option<Cone>)
    returns (rows: map<string, Row>, ghost files: seq<string>)
    requires (cone.Some? ==> Minimal(cone.value)) && forall n :: n in vfile ==> CoveredBy(cone, n)
    ensures Elements(files) == baseline.Keys
    ensures forall n {:trigger n in rows} :: n in rows <==> n in vfile || (n in files && !CoveredBy(cone, n))
    ensures forall n {:trigger rows[n]} :: n in rows ==>
              (n in vfile ==> rows[n] == vfile[n])
                && (n !in vfile ==> n in baseline && rows[n] == FromBaseline(baseline[n]))
  {
    rows := vfile;
    var list := ListOf(baseline.Keys);
    files := list;
    for i := 0 to |list|
      invariant forall n {:trigger n in rows} :: n in rows <==> n in vfile || (n in list[..i] && !CoveredBy(cone, n))
      invariant forall n {:trigger rows[n]} :: n in rows ==>
        (n in vfile ==> rows[n] == vfile[n]) && (n !in vfile ==> n in baseline && rows[n] == FromBaseline(baseline[n]))
    {
      var n := list[i];
      assert n in Elements(list);
      assert list[..i + 1] == list[..i] + [n];
      var covered := CoversName(cone, n);
      if !covered {
        rows := rows[n := FromBaseline(baseline[n])];
      }
    }
    assert list[..|list|] == list;
  }

  /** Pending outcomes over everything else. */
  method OverlayPending(
    overlaid: map<string, Row>, pending: map<string, Outcome>)
    returns (rows: map<string, Row>, ghost names: seq<string>)
    ensures Elements(names) == pending.Keys
    ensures forall n {:trigger n in rows} :: n in rows <==> n in overlaid || n in names
    ensures forall n {:trigger rows[n]} :: n in rows && n in names ==> n in pending && rows[n] == pending[n].row
    ensures forall n {:trigger rows[n]} :: n in rows && n !in names ==> n in overlaid && rows[n] == overlaid[n]
  {
    rows := overlaid;
    var list := ListOf(pending.Keys);
    names := list;
    for i := 0 to |list|
      invariant forall n {:trigger n in rows} :: n in rows <==> n in overlaid || n in list[..i]
      invariant forall n {:trigger rows[n]} :: n in rows && n in list[..i] ==> n in pending && rows[n] == pending[n].row
      invariant forall n {:trigger rows[n]} :: n in rows && n !in list[..i] ==> n in overlaid && rows[n] == overlaid[n]
    {
      assert list[i] in Elements(list);
      assert list[..i + 1] == list[..i] + [list[i]];
      rows := rows[list[i] := pending[list[i]].row];
    }
    assert list[..|list|] == list;
  }

  class Checkout {
    const baseline: map<string, FileEntry>
    var vfile: map<string, Row>
    var pending: map<string, Outcome>
    var cone: Option<Cone>
    var disk: map<string, int>

    ghost function Record(): map<string, Row>
      reads this
    {
      Effective(vfile, baseline, pending, cone)
    }

    ghost predicate Valid()
      reads this
    {
      && (cone.Some? ==> Minimal(cone.value))
      && (cone == None ==> pending == map[])
      && Split(vfile, pending, cone)
      && Faithful(Record(), baseline)
    }

    /** The effective record, overlaid table by table. */
    method EffectiveRows() returns (rows: map<string, Row>)
      requires Valid()
      ensures rows == Record()
      ensures cone == None ==> rows == vfile
      ensures cone.Some? ==> forall n :: n in rows <==>
                n in vfile || n in pending || (n in baseline && !Covers(cone.value, n))
      ensures cone.Some? ==> forall n :: n in rows ==>
                rows[n] == if n in pending then pending[n].row
                           else if n in vfile then vfile[n]
                           else Row(baseline[n].rid, baseline[n].rid, 0, false, baseline[n].exe, baseline[n].link, None)
    {
      if cone == None {
        return vfile;
      }
      ghost var files, names;
      var overlaid;
      overlaid, files := OverlayBaseline(vfile, baseline, cone);
      rows, names := OverlayPending(overlaid, pending);
      Overlaid(files, overlaid, names, rows);
    }

    lemma {:induction false} Overlaid(
      files: seq<string>, overlaid: map<string, Row>, names: seq<string>, rows: map<string, Row>)
      requires Valid() && cone.Some?
      requires Elements(files) == baseline.Keys && Elements(names) == pending.Keys
      requires forall n {:trigger n in overlaid} :: n in overlaid <==> n in vfile || (n in files && !CoveredBy(cone, n))
      requires forall n {:trigger overlaid[n]} :: n in overlaid ==>
        (n in vfile ==> overlaid[n] == vfile[n])
          && (n !in vfile ==> n in baseline && overlaid[n] == FromBaseline(baseline[n]))
      requires forall n {:trigger n in rows} :: n in rows <==> n in overlaid || n in names
      requires forall n {:trigger rows[n]} :: n in rows && n in names ==> n in pending && rows[n] == pending[n].row
      requires forall n {:trigger rows[n]} :: n in rows && n !in names ==> n in overlaid && rows[n] == overlaid[n]
      ensures rows == Record()
    {
      forall n ensures n in rows <==> n in Record() {
        RecordAt(vfile, baseline, pending, cone, n);
        assert n in files <==> n in Elements(files);
        assert n in names <==> n in Elements(names);
      }
      forall n | n in rows ensures rows[n] == Record()[n] {
        RecordAt(vfile, baseline, pending, cone, n);
        assert n in names <==> n in Elements(names);
      }
    }

    /** The rows a change to next brings in and takes out, or why it is refused. */
    method PlanConeChange(next: Option<Cone>) returns (p: Planned, rows: map<string, Row>)
      requires Valid() && (next.Some? ==> Minimal(next.value))
      ensures rows == Record()
      ensures p.Planned? <==> Acceptable(Record(), disk, cone, next)
      ensures p.Refused? <==> exists n :: Blocks(n, Record(), disk, cone, next)
      ensures p.Refused? ==> Justified(p.why, Record(), disk, cone, next)
      ensures p.Planned? ==> NoRepeats(p.plan.entering) && NoRepeats(p.plan.leaving)
      ensures p.Planned? ==> Elements(p.plan.entering) == Entering(Record(), cone, next)
      ensures p.Planned? ==> Elements(p.plan.leaving) == Leaving(Record(), cone, next)
    {
      rows := EffectiveRows();
      p := PlanRows(rows, disk, cone, next);
    }

    /** INSERT OR IGNORE: a name that has a row keeps it. */
    method InsertManagedRow(n: string, row: Row)
      modifies this`vfile
      ensures vfile == if n in old(vfile) then old(vfile) else old(vfile)[n := row]
    {
      if n !in vfile {
        vfile := vfile[n := row];
      }
    }

    /** The row is merged into: it shows the change and its file holds the merged content. */
    method MergeEntering(n: string, merge: Merge)
      requires n in vfile
      modifies this`vfile, this`disk
      ensures vfile == old(vfile)[n := old(vfile)[n].(chnged := NextChanged(old(vfile)[n].chnged), isexe := merge.exe)]
      ensures disk == old(disk)[n := merge.content]
    {
      disk := disk[n := merge.content];
      vfile := vfile[n := vfile[n].(chnged := NextChanged(vfile[n].chnged), isexe := merge.exe)];
    }

    /** One entering row is inserted and written, merged if it was left unresolved, and no longer pending. */
    method BringOne(n: string, row: Row, outcomes: map<string, Outcome>, merger: Merger)
      requires n !in vfile
      modifies this`vfile, this`disk, this`pending
      ensures vfile == old(vfile)[n := Arrive(n, row, outcomes, merger).row]
      ensures if n in outcomes && outcomes[n].unresolved && !row.deleted && !row.islink && merger(n).Some? then
                && n in disk && disk[n] == merger(n).value.content
                && vfile[n] == row.(isexe := merger(n).value.exe,
                                    chnged := if row.chnged in {0, 1, 2, 4} then 1 else row.chnged)
              else vfile[n] == row && (!row.deleted ==> n in disk && disk[n] == row.mrid)
      ensures disk == if row.deleted then old(disk) else old(disk)[n := Arrive(n, row, outcomes, merger).content]
      ensures pending == old(pending) - {n}
    {
      InsertManagedRow(n, row);
      if !row.deleted {
        disk := disk[n := row.mrid];
      }
      if MergesIn(n, row, outcomes, merger) {
        WrittenOver(old(vfile), n, row, Arrive(n, row, outcomes, merger).row);
        WrittenOver(old(disk), n, row.mrid, merger(n).value.content);
        MergeEntering(n, merger(n).value);
      }
      pending := pending - {n};
    }

    /** Entering rows are inserted, written and no longer pending. */
    method BringIn(entering: seq<string>, rows: map<string, Row>, merger: Merger)
      requires Elements(entering) <= rows.Keys && Elements(entering) !! vfile.Keys
      requires NoRepeats(entering)
      modifies this`vfile, this`disk, this`pending
      ensures VfileGrown(old(vfile), vfile, Arrivals(rows, old(pending), merger), Elements(entering))
      ensures PendingMoved(old(pending), pending, Elements(entering))
      ensures DiskMoved(old(disk), disk, Arrivals(rows, old(pending), merger), Elements(entering), {})
    {
      var outcomes := pending;
      ghost var arrivals := Arrivals(rows, outcomes, merger);
      for i := 0 to |entering|
        invariant VfileGrown(old(vfile), vfile, arrivals, Elements(entering[..i]))
        invariant PendingMoved(old(pending), pending, Elements(entering[..i]))
        invariant DiskMoved(old(disk), disk, arrivals, Elements(entering[..i]), {})
      {
        var n := entering[i];
        ElementsMore(entering, i);
        GrowOne(old(vfile), vfile, arrivals, Elements(entering[..i]), n);
        WriteOne(old(disk), disk, arrivals, Elements(entering[..i]), n);
        BringOne(n, rows[n], outcomes, merger);
      }
      assert entering[..|entering|] == entering;
    }

    /** Leaving rows are deleted and their files removed. */
    method TakeOut(leaving: seq<string>)
      modifies this`vfile, this`disk
      ensures vfile == old(vfile) - Elements(leaving) && disk == old(disk) - Elements(leaving)
    {
      for i := 0 to |leaving|
        invariant vfile == old(vfile) - Elements(leaving[..i]) && disk == old(disk) - Elements(leaving[..i])
      {
        ElementsMore(leaving, i);
        disk := disk - {leaving[i]};
        vfile := vfile - {leaving[i]};
      }
      assert leaving[..|leaving|] == leaving;
    }

    method ApplyConeChange(next: Option<Cone>, plan: Plan, rows: map<string, Row>, merger: Merger)
      requires Elements(plan.entering) <= rows.Keys && Elements(plan.entering) !! Elements(plan.leaving)
      requires Elements(plan.entering) !! vfile.Keys
      requires NoRepeats(plan.entering)
      modifies this
      ensures cone == next
      ensures VfileMoved(old(vfile), vfile, Arrivals(rows, old(pending), merger), Elements(plan.entering),
              Elements(plan.leaving))
      ensures PendingMoved(old(pending), pending, Elements(plan.entering))
      ensures DiskMoved(old(disk), disk, Arrivals(rows, old(pending), merger), Elements(plan.entering),
              Elements(plan.leaving))
    {
      ghost var arrivals := Arrivals(rows, pending, merger);
      BringIn(plan.entering, rows, merger);
      ShrunkIsMoved(old(vfile), vfile, arrivals, Elements(plan.entering), Elements(plan.leaving));
      RemoveAll(old(disk), disk, arrivals, Elements(plan.entering), Elements(plan.leaving));
      TakeOut(plan.leaving);
      cone := next;
    }

    /**
     * The cone is replaced, unless work would be lost or a file overwritten, in
     * which case nothing changes. The effective record stays as it was exactly
     * when every name of the version leaving the cone had a row and no entering
     * row was merged into a different one.
     */
    method SetCone(next: Option<Cone>, merger: Merger) returns (r: Answer)
      requires Valid() && (next.Some? ==> Minimal(next.value))
      modifies this
      ensures Valid()
      ensures r.Done? <==> old(Acceptable(Record(), disk, cone, next))
      ensures r.Declined? <==> old(exists n :: Blocks(n, Record(), disk, cone, next))
      ensures r.Declined? ==> unchanged(this) && old(Justified(r.why, Record(), disk, cone, next))
      ensures r.Done? ==> forall n :: n in old(disk) ==>
                || (n in disk && disk[n] == old(disk)[n])
                || (n in old(Record()) && old(CoveredBy(cone, n)) && !CoveredBy(next, n)
                    && Untouched(n, old(Record())[n]))
                || (n in old(Record()) && !old(CoveredBy(cone, n)) && CoveredBy(next, n)
                    && !old(Record())[n].deleted && old(disk)[n] == old(Record())[n].mrid)
      ensures r.Done? ==> cone == next && PendingMoved(old(pending), pending, old(Entering(Record(), cone, next)))
      ensures r.Done? ==> NoRepeats(r.change.materialized) && NoRepeats(r.change.dematerialized)
      ensures r.Done? ==> Elements(r.change.materialized) == old(Entering(Record(), cone, next))
      ensures r.Done? ==> Elements(r.change.dematerialized) == old(Leaving(Record(), cone, next))
      ensures r.Done? ==>
                DiskMoved(old(disk), disk, Arrivals(old(Record()), old(pending), merger),
                          old(Entering(Record(), cone, next)), old(Leaving(Record(), cone, next)))
      ensures r.Done? ==>
                (SameRecord(old(Record()), Record()) <==>
                   old(NoneUnrecorded(vfile, baseline, cone, next))
                   && old(MergesNothing(Record(), pending, merger, Entering(Record(), cone, next))))
    {
      var p, rows := PlanConeChange(next);
      if p.Refused? {
        return Declined(p.why);
      }
      NoneEntered(vfile, rows, pending, cone, next);
      ApplyConeChange(next, p.plan, rows, merger);
      LeavingUnchanged(rows, old(disk), old(cone), next);
      ChangeKeepsSplit(baseline, old(cone), next, merger, old(vfile), old(pending), vfile, pending);
      ChangeKeepsRecord(baseline, old(cone), next, merger, old(vfile), old(pending), vfile, pending);
      NothingOverwritten(rows, old(disk), disk, old(cone), next, Arrivals(rows, old(pending), merger));
      r := Done(ConeChange(p.plan.entering, p.plan.leaving));
    }
  }

  lemma {:induction false} WrittenOver<V>(m: map<string, V>, n: string, a: V, b: V)
    ensures m[n := a][n := b] == m[n := b]
  {
  }

  /** The row says that its file is the version's: not added, removed, renamed, modified or merged. */
  predicate Untouched(n: string, r: Row) {
    && r.rid != 0 && !r.deleted && r.chnged == 0 && r.mrid == r.rid
    && (r.origname == None || r.origname == Some(n) || r.origname == Some(""))
  }

  /** The file may not cross: it enters without content or with another file in its place,
      or leaves changed or missing. */
  ghost predicate Blocks(
    n: string, record: map<string, Row>, disk: map<string, int>, cone: Option<Cone>, next: Option<Cone>)
  {
    n in record && CoveredBy(cone, n) != CoveredBy(next, n) &&
    if CoveredBy(next, n) then
      !record[n].deleted && (record[n].mrid <= 0 || (n in disk && disk[n] != record[n].mrid))
    else n !in disk || !Untouched(n, record[n])
  }

  /** The reason given for a refusal is one. */
  ghost predicate Justified(
    why: Refusal, record: map<string, Row>, disk: map<string, int>, cone: Option<Cone>, next: Option<Cone>)
  {
    match why
    case LocalChanges(names) =>
      names != [] && forall n :: n in names <==> Blocks(n, record, disk, cone, next) && !CoveredBy(next, n)
    case NoContent(n) => Blocks(n, record, disk, cone, next) && CoveredBy(next, n) && record[n].mrid <= 0
    case InTheWay(n) =>
      Blocks(n, record, disk, cone, next) && CoveredBy(next, n) && n in disk && disk[n] != record[n].mrid
  }

  lemma {:induction false} ChangesJustified(
    record: map<string, Row>, disk: map<string, int>, cone: Option<Cone>, next: Option<Cone>, names: seq<string>)
    requires names != []
    requires forall n :: n in names <==> n in Leaving(record, cone, next) && RowChanged(n, record[n], n !in disk)
    ensures Justified(LocalChanges(names), record, disk, cone, next)
  {
    forall n ensures n in names <==> Blocks(n, record, disk, cone, next) && !CoveredBy(next, n) {
      if n in record {
        RowChangedExactly(n, record[n], n !in disk);
      }
    }
  }

  lemma {:induction false} DeclinedExactly(
    record: map<string, Row>, disk: map<string, int>, cone: Option<Cone>, next: Option<Cone>)
    ensures !Acceptable(record, disk, cone, next) <==> exists n :: Blocks(n, record, disk, cone, next)
  {
    forall n ensures Blocks(n, record, disk, cone, next) <==>
                       (n in Leaving(record, cone, next) && RowChanged(n, record[n], n !in disk))
                       || (n in Entering(record, cone, next) && !CanEnter(record, disk, n))
    {
      if n in record {
        RowChangedExactly(n, record[n], n !in disk);
      }
    }
  }

  lemma {:induction false} RowChangedExactly(n: string, r: Row, missing: bool)
    ensures RowChanged(n, r, missing) <==> missing || !Untouched(n, r)
  {
  }

  /** A file on disk stays as it is, unless it left the cone unchanged or held just what entered. */
  lemma {:induction false} NothingOverwritten(
    record: map<string, Row>, before: map<string, int>, after: map<string, int>, cone: Option<Cone>, next: Option<Cone>,
    arrivals: map<string, Arrival>)
    requires Acceptable(record, before, cone, next)
    requires arrivals.Keys == record.Keys && forall n :: n in record ==> arrivals[n].row.deleted == record[n].deleted
    requires DiskMoved(before, after, arrivals, Entering(record, cone, next), Leaving(record, cone, next))
    ensures forall n :: n in before ==>
              || (n in after && after[n] == before[n])
              || (n in record && CoveredBy(cone, n) && !CoveredBy(next, n) && Untouched(n, record[n]))
              || (n in record && !CoveredBy(cone, n) && CoveredBy(next, n)
                  && !record[n].deleted && before[n] == record[n].mrid)
  {
    forall n | n in before && !(n in after && after[n] == before[n])
      ensures (n in Leaving(record, cone, next) && Untouched(n, record[n]))
              || (n in Entering(record, cone, next) && !record[n].deleted && before[n] == record[n].mrid)
    {
      assert n in Written(arrivals, Entering(record, cone, next)) || n in Leaving(record, cone, next);
      if n in record {
        RowChangedExactly(n, record[n], false);
      }
    }
  }

  /** A file about to enter has no row in the file table. */
  lemma {:induction false} NoneEntered(
    vfile: map<string, Row>, record: map<string, Row>, pending: map<string, Outcome>, cone: Option<Cone>,
    next: Option<Cone>)
    requires Split(vfile, pending, cone)
    ensures Entering(record, cone, next) !! vfile.Keys
  {
  }

  lemma {:induction false} LeavingUnchanged(
    record: map<string, Row>, disk: map<string, int>, cone: Option<Cone>, next: Option<Cone>)
    requires Acceptable(record, disk, cone, next)
    ensures forall n :: n in Leaving(record, cone, next) ==> !RowChanged(n, record[n], false)
  {
  }

  /**
   * Renaming a to b and then narrowing to b brings a back into the record: the
   * version has it, no row does, and the change is accepted.
   */
  lemma {:induction false} RenamedAwayComesBack()
    ensures var baseline := map["a" := FileEntry(1, false, false)];
            var vfile := map["b" := Row(1, 1, 0, false, false, false, Some("a"))];
            var next := Some(Cone(["b"], [], None));
            && Minimal(next.value)
            && Split(vfile, map[], None) && Faithful(Effective(vfile, baseline, map[], None), baseline)
            && Acceptable(Effective(vfile, baseline, map[], None), map["b" := 1], None, next)
            && Entering(vfile, None, next) == {} && Leaving(vfile, None, next) == {}
            && "a" !in Effective(vfile, baseline, map[], None)
            && "a" in Effective(vfile, baseline, map[], next)
  {
    var I, X := {"b"}, {};
    assert Elements(["b"]) == I && Elements([]) == X;
    assert MemberCovers("b", "b") && OutranksAll("b", X, "b");
    assert "a"[0] == 'a' && "b"[0] == 'b';
    assert !MemberCovers("b", "a");
    assert Covered(I, X, "b") && !Covered(I, X, "a");
    assert Dir("b") == Dir("") == "";
    assert TurnsOn(I, X, "b");
    var vfile := map["b" := Row(1, 1, 0, false, false, false, Some("a"))];
    assert CoveredBy(Some(Cone(["b"], [], None)), "b");
    assert forall n :: n in vfile ==> n == "b";
    assert RenamedFrom("b", vfile["b"]) == Some("a");
  }
}
