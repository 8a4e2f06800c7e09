/** What a sparse checkout's tables record, and what changing its cone does to the record. */
module SparseRecord {
  import opened Basics
  import opened Cone

  /** One row of the file table, apart from its id and mtime. */
  datatype Row = Row(rid: int, mrid: int, chnged: nat, deleted: bool, isexe: bool, islink: bool,
    origname: Option<string>)

  /** A file's permission in a version. */
  datatype Perm = Plain | Executable | Symlink

  /** A change to an uncovered file, kept outside the file table. */
  datatype Outcome = Outcome(row: Row, unresolved: bool)

  /** A file of the checked-out version. */
  datatype FileEntry = FileEntry(rid: int, exe: bool, link: bool)

  datatype Change =
    | Unchanged | Added | Removed | Missing | Renamed | Modified
    | BecameExecutable | BecameSymlink | LostExecutable | LostSymlink

  // ------------------------------------------------------------------- reading rows

  /** The name a row was renamed from; a row never renamed may name itself. */
  function RenamedFrom(name: string, r: Row): Option<string> {
    if r.origname == None || r.origname.value == name || r.origname.value == "" then None else r.origname
  }

  function Classify(name: string, r: Row, missing: bool): Change {
    if r.deleted then Removed
    else if missing then Missing
    else if r.rid == 0 then Added
    else if RenamedFrom(name, r) != None then Renamed
    else if r.chnged == 6 then BecameExecutable
    else if r.chnged == 7 then BecameSymlink
    else if r.chnged == 8 then LostExecutable
    else if r.chnged == 9 then LostSymlink
    else if r.chnged > 0 then Modified
    else Unchanged
  }

  predicate PendingMerge(r: Row) {
    2 <= r.chnged <= 5 || r.mrid != r.rid
  }

  /** The row holds work that removing its file would lose. */
  predicate RowChanged(name: string, r: Row, missing: bool) {
    Classify(name, r, missing) != Unchanged || PendingMerge(r)
  }

  /** A row up to how it says that it was never renamed. */
  function Meaning(name: string, r: Row): Row {
    r.(origname := RenamedFrom(name, r))
  }

  function FromBaseline(f: FileEntry): Row {
    Row(f.rid, f.rid, 0, false, f.exe, f.link, None)
  }

  // --------------------------------------------------------------- the effective record

  /** A dense checkout covers every name. */
  ghost predicate CoveredBy(cone: Option<Cone>, name: string) {
    cone == None || Covers(cone.value, name)
  }

  /**
   * The record of the whole version: rows of the file table, uncovered files as
   * the version has them, and over those the outcomes pending for uncovered files.
   */
  ghost function Effective(
    vfile: map<string, Row>, baseline: map<string, FileEntry>, pending: map<string, Outcome>, cone: Option<Cone>)
    : map<string, Row>
  {
    if cone == None then vfile
    else
      map n | n in vfile.Keys + baseline.Keys + pending.Keys && InRecord(vfile, baseline, pending, cone, n) ::
        RowOf(vfile, baseline, pending, cone, n)
  }

  ghost predicate InRecord(
    vfile: map<string, Row>, baseline: map<string, FileEntry>, pending: map<string, Outcome>, cone: Option<Cone>,
    n: string)
  {
    n in vfile || (cone.Some? && (n in pending || (n in baseline && !CoveredBy(cone, n))))
  }

  ghost function RowOf(
    vfile: map<string, Row>, baseline: map<string, FileEntry>, pending: map<string, Outcome>, cone: Option<Cone>,
    n: string): Row
    requires InRecord(vfile, baseline, pending, cone, n)
  {
    if cone.Some? && n in pending then pending[n].row
    else if n in baseline && !CoveredBy(cone, n) then FromBaseline(baseline[n])
    else vfile[n]
  }

  /** The same files with the same rows. */
  ghost predicate SameRecord(a: map<string, Row>, b: map<string, Row>) {
    a.Keys == b.Keys && forall n :: n in a ==> Meaning(n, a[n]) == Meaning(n, b[n])
  }

  /** The file table holds covered names only, the pending outcomes uncovered ones only. */
  ghost predicate Split(vfile: map<string, Row>, pending: map<string, Outcome>, cone: Option<Cone>) {
    && (forall n :: n in vfile ==> CoveredBy(cone, n))
    && (forall n :: n in pending ==> !CoveredBy(cone, n))
  }

  /** A row that shows no change is the version's own entry. */
  ghost predicate Faithful(record: map<string, Row>, baseline: map<string, FileEntry>) {
    forall n :: n in record && !RowChanged(n, record[n], false) ==>
      n in baseline && Meaning(n, record[n]) == FromBaseline(baseline[n])
  }

  // ------------------------------------------------------------------ the cone change

  ghost function Entering(record: map<string, Row>, cone: Option<Cone>, next: Option<Cone>): set<string> {
    set n | n in record && !CoveredBy(cone, n) && CoveredBy(next, n)
  }

  ghost function Leaving(record: map<string, Row>, cone: Option<Cone>, next: Option<Cone>): set<string> {
    set n | n in record && CoveredBy(cone, n) && !CoveredBy(next, n)
  }

  /** What merging an unresolved outcome into an entering file leaves: its permission and content. */
  datatype Merge = Merge(exe: bool, content: int)

  /** The merge of a name's file, none where its own content is kept. */
  type Merger = string -> Option<Merge>

  /** An entering row's row and file content, once merged if it has to be. */
  datatype Arrival = Arrival(row: Row, content: int)

  /** What a scan makes of a row whose content now differs. */
  function NextChanged(chnged: nat): nat {
    if chnged == 0 || chnged == 1 || chnged == 2 || chnged == 4 then 1 else chnged
  }

  /** The outcome pending for the row is unresolved, and merging gives something. */
  predicate MergesIn(n: string, r: Row, pending: map<string, Outcome>, merger: Merger) {
    n in pending && pending[n].unresolved && !r.deleted && !r.islink && merger(n).Some?
  }

  function Arrive(n: string, r: Row, pending: map<string, Outcome>, merger: Merger): Arrival {
    if MergesIn(n, r, pending, merger) then
      Arrival(r.(chnged := NextChanged(r.chnged), isexe := merger(n).value.exe), merger(n).value.content)
    else Arrival(r, r.mrid)
  }

  /** How each row of the record arrives if it enters. */
  function Arrivals(
    record: map<string, Row>, pending: map<string, Outcome>, merger: Merger): (arrivals: map<string, Arrival>)
    ensures arrivals.Keys == record.Keys
  {
    map n | n in record :: Arrive(n, record[n], pending, merger)
  }

  /** The file table once the entering rows are inserted and the leaving ones deleted. */
  ghost predicate VfileMoved(
    before: map<string, Row>, after: map<string, Row>, arrivals: map<string, Arrival>, entering: set<string>,
    leaving: set<string>)
    requires entering <= arrivals.Keys
  {
    && (forall n {:trigger n in after} :: n in after <==> n in entering || (n in before && n !in leaving))
    && (forall n {:trigger after[n]} :: n in after ==>
          after[n] == if n in before then before[n] else if n in entering then arrivals[n].row else after[n])
  }

  ghost predicate PendingMoved(before: map<string, Outcome>, after: map<string, Outcome>, entering: set<string>) {
    after == before - entering
  }

  /** Every name of the version leaving the cone has a row in the file table. */
  ghost predicate NoneUnrecorded(
    vfile: map<string, Row>, baseline: map<string, FileEntry>, cone: Option<Cone>, next: Option<Cone>)
  {
    forall n :: n in baseline && CoveredBy(cone, n) && !CoveredBy(next, n) ==> n in vfile
  }

  /** A checkout's tables before and after a cone change that refused nothing. */
  ghost predicate Changed(
    baseline: map<string, FileEntry>, cone: Option<Cone>, next: Option<Cone>, merger: Merger,
    vfile: map<string, Row>, pending: map<string, Outcome>, vfile': map<string, Row>, pending': map<string, Outcome>)
  {
    var record := Effective(vfile, baseline, pending, cone);
    && Split(vfile, pending, cone) && Faithful(record, baseline)
    && (forall n :: n in Leaving(record, cone, next) ==> !RowChanged(n, record[n], false))
    && VfileMoved(vfile, vfile', Arrivals(record, pending, merger), Entering(record, cone, next),
      Leaving(record, cone, next))
    && PendingMoved(pending, pending', Entering(record, cone, next))
  }

  lemma {:induction false} RecordAt(
    vfile: map<string, Row>, baseline: map<string, FileEntry>, pending: map<string, Outcome>, cone: Option<Cone>,
    n: string)
    ensures n in Effective(vfile, baseline, pending, cone) <==> InRecord(vfile, baseline, pending, cone, n)
    ensures InRecord(vfile, baseline, pending, cone, n) && Split(vfile, pending, cone) ==>
              Effective(vfile, baseline, pending, cone)[n] == RowOf(vfile, baseline, pending, cone, n)
  {
  }

  /** Both sides of the boundary stay apart. */
  lemma {:induction false} ChangeKeepsSplit(
    baseline: map<string, FileEntry>, cone: Option<Cone>, next: Option<Cone>, merger: Merger,
    vfile: map<string, Row>, pending: map<string, Outcome>, vfile': map<string, Row>, pending': map<string, Outcome>)
    requires Changed(baseline, cone, next, merger, vfile, pending, vfile', pending')
    requires cone == None ==> pending == map[]
    ensures Split(vfile', pending', next)
    ensures next == None ==> pending' == map[]
  {
    var record := Effective(vfile, baseline, pending, cone);
    forall n | n in vfile' ensures CoveredBy(next, n) {
      RecordAt(vfile, baseline, pending, cone, n);
    }
    forall n | n in pending' ensures !CoveredBy(next, n) {
      RecordAt(vfile, baseline, pending, cone, n);
    }
    if next == None {
      assert pending'.Keys == {};
    }
  }

  /** What becomes of one name: its row is the same, or a file without a row comes back from the version. */
  lemma {:induction false} ChangeAt(
    baseline: map<string, FileEntry>, cone: Option<Cone>, next: Option<Cone>, merger: Merger,
    vfile: map<string, Row>, pending: map<string, Outcome>, vfile': map<string, Row>, pending': map<string, Outcome>,
    n: string)
    requires Changed(baseline, cone, next, merger, vfile, pending, vfile', pending')
    requires cone == None ==> pending == map[]
    requires Split(vfile', pending', next)
    ensures InRecord(vfile', baseline, pending', next, n) <==>
              InRecord(vfile, baseline, pending, cone, n)
                || (n in baseline && CoveredBy(cone, n) && !CoveredBy(next, n))
    ensures InRecord(vfile, baseline, pending, cone, n) && InRecord(vfile', baseline, pending', next, n) ==>
              Meaning(n, RowOf(vfile', baseline, pending', next, n)) ==
              Meaning(n, if !CoveredBy(cone, n) && CoveredBy(next, n)
                         then Arrive(n, RowOf(vfile, baseline, pending, cone, n), pending, merger).row
                         else RowOf(vfile, baseline, pending, cone, n))
  {
    RecordAt(vfile, baseline, pending, cone, n);
  }

  /** No entering row is merged into a different one. */
  ghost predicate MergesNothing(
    record: map<string, Row>, pending: map<string, Outcome>, merger: Merger, entering: set<string>)
  {
    forall n :: n in entering && n in record ==>
        Meaning(n, Arrive(n, record[n], pending, merger).row) == Meaning(n, record[n])
  }

  /**
   * A cone change leaves the effective record as it was exactly when every name of the
   * version that leaves the cone has a row of its own and no entering row is merged into
   * a different one.
   */
  lemma {:induction false} ChangeKeepsRecord(
    baseline: map<string, FileEntry>, cone: Option<Cone>, next: Option<Cone>, merger: Merger,
    vfile: map<string, Row>, pending: map<string, Outcome>, vfile': map<string, Row>, pending': map<string, Outcome>)
    requires Changed(baseline, cone, next, merger, vfile, pending, vfile', pending')
    requires cone == None ==> pending == map[]
    ensures var record := Effective(vfile, baseline, pending, cone);
            SameRecord(record, Effective(vfile', baseline, pending', next)) <==>
              NoneUnrecorded(vfile, baseline, cone, next)
              && MergesNothing(record, pending, merger, Entering(record, cone, next))
    ensures Faithful(Effective(vfile', baseline, pending', next), baseline)
  {
    ChangeKeepsSplit(baseline, cone, next, merger, vfile, pending, vfile', pending');
    var a, b := Effective(vfile, baseline, pending, cone), Effective(vfile', baseline, pending', next);
    forall n ensures Follows(a, b, vfile, baseline, pending, merger, cone, next, n) {
      ChangeAt(baseline, cone, next, merger, vfile, pending, vfile', pending', n);
      RecordAt(vfile, baseline, pending, cone, n);
      RecordAt(vfile', baseline, pending', next, n);
    }
    FollowsSame(a, b, vfile, baseline, pending, merger, cone, next);
    FollowsFaithful(a, b, vfile, baseline, pending, merger, cone, next);
  }

  /** The row a name of the record has after the change. */
  ghost function Carried(
    a: map<string, Row>, pending: map<string, Outcome>, merger: Merger, cone: Option<Cone>, next: Option<Cone>,
      n: string): Row
    requires n in a
  {
    if n in Entering(a, cone, next) then Arrive(n, a[n], pending, merger).row else a[n]
  }

  /** How the record after a change has a name that the record before had, or lacked. */
  ghost predicate Follows(
    a: map<string, Row>, b: map<string, Row>, vfile: map<string, Row>, baseline: map<string, FileEntry>,
    pending: map<string, Outcome>, merger: Merger, cone: Option<Cone>, next: Option<Cone>, n: string)
  {
    && (n in b <==> n in a || (n in baseline && CoveredBy(cone, n) && !CoveredBy(next, n)))
    && (n in a && n in b ==> Meaning(n, b[n]) == Meaning(n, Carried(a, pending, merger, cone, next, n)))
    && (n in b && n !in a ==> n in baseline && b[n] == FromBaseline(baseline[n]))
    && (CoveredBy(cone, n) ==> (n in a <==> n in vfile))
  }

  ghost predicate AllFollow(
    a: map<string, Row>, b: map<string, Row>, vfile: map<string, Row>, baseline: map<string, FileEntry>,
    pending: map<string, Outcome>, merger: Merger, cone: Option<Cone>, next: Option<Cone>)
  {
    forall n :: Follows(a, b, vfile, baseline, pending, merger, cone, next, n)
  }

  lemma {:induction false} FollowsSame(
    a: map<string, Row>, b: map<string, Row>, vfile: map<string, Row>, baseline: map<string, FileEntry>,
    pending: map<string, Outcome>, merger: Merger, cone: Option<Cone>, next: Option<Cone>)
    requires AllFollow(a, b, vfile, baseline, pending, merger, cone, next)
    ensures SameRecord(a, b) <==>
              NoneUnrecorded(vfile, baseline, cone, next) && MergesNothing(a, pending, merger, Entering(a, cone, next))
  {
    FollowsKeys(a, b, vfile, baseline, pending, merger, cone, next);
    if a.Keys == b.Keys {
      FollowsRows(a, b, vfile, baseline, pending, merger, cone, next);
    }
  }

  lemma {:induction false} FollowsKeys(
    a: map<string, Row>, b: map<string, Row>, vfile: map<string, Row>, baseline: map<string, FileEntry>,
    pending: map<string, Outcome>, merger: Merger, cone: Option<Cone>, next: Option<Cone>)
    requires AllFollow(a, b, vfile, baseline, pending, merger, cone, next)
    ensures a.Keys == b.Keys <==> NoneUnrecorded(vfile, baseline, cone, next)
  {
    if NoneUnrecorded(vfile, baseline, cone, next) {
      forall n ensures n in a <==> n in b {
        assert Follows(a, b, vfile, baseline, pending, merger, cone, next, n);
      }
    }
    if a.Keys == b.Keys {
      forall n | n in baseline && CoveredBy(cone, n) && !CoveredBy(next, n) ensures n in vfile {
        assert Follows(a, b, vfile, baseline, pending, merger, cone, next, n);
        assert n in a.Keys <==> n in b.Keys;
      }
    }
  }

  lemma {:induction false} FollowsRows(
    a: map<string, Row>, b: map<string, Row>, vfile: map<string, Row>, baseline: map<string, FileEntry>,
    pending: map<string, Outcome>, merger: Merger, cone: Option<Cone>, next: Option<Cone>)
    requires AllFollow(a, b, vfile, baseline, pending, merger, cone, next)
    requires a.Keys == b.Keys
    ensures SameRecord(a, b) <==> MergesNothing(a, pending, merger, Entering(a, cone, next))
  {
    forall n | n in a
      ensures Meaning(n, b[n]) == Meaning(n, Carried(a, pending, merger, cone, next, n))
    {
      assert Follows(a, b, vfile, baseline, pending, merger, cone, next, n);
      assert n in b.Keys;
    }
  }

  lemma {:induction false} FollowsFaithful(
    a: map<string, Row>, b: map<string, Row>, vfile: map<string, Row>, baseline: map<string, FileEntry>,
    pending: map<string, Outcome>, merger: Merger, cone: Option<Cone>, next: Option<Cone>)
    requires AllFollow(a, b, vfile, baseline, pending, merger, cone, next)
    requires Faithful(a, baseline)
    ensures Faithful(b, baseline)
  {
    forall n | n in b && !RowChanged(n, b[n], false)
      ensures n in baseline && Meaning(n, b[n]) == FromBaseline(baseline[n])
    {
      assert Follows(a, b, vfile, baseline, pending, merger, cone, next, n);
      if n in a {
        MeaningDecidesChange(n, Carried(a, pending, merger, cone, next, n), b[n]);
        CarriedChanged(a, pending, merger, cone, next, n);
      }
    }
  }

  /** A merged row shows its change. */
  lemma {:induction false} CarriedChanged(
    a: map<string, Row>, pending: map<string, Outcome>, merger: Merger, cone: Option<Cone>, next: Option<Cone>,
    n: string)
    requires n in a
    ensures Carried(a, pending, merger, cone, next, n) == a[n]
            || RowChanged(n, Carried(a, pending, merger, cone, next, n), false)
  {
  }

  lemma {:induction false} MeaningDecidesChange(n: string, r: Row, s: Row)
    requires Meaning(n, r) == Meaning(n, s)
    ensures RowChanged(n, r, false) <==> RowChanged(n, s, false)
  {
  }
}
