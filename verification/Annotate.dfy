/** Annotation: which version each line of a file is credited to. The walk goes
    back along primary parents and diffs each older version against the starting
    one; a line the older version lacks is credited to the version just newer. */
module Annotate {
  import opened Basics
  import opened LineHashing
  import opened LineTable
  import opened EditScript
  import opened CommonRun
  import opened DiffOutcome
  import opened LineDiff

  /** The lines of a file as the diff compares them. */
  ghost function FileKeys(file: seq<Byte>, hash: Hash): (keys: seq<Key>)
    ensures |keys| == |FileLines(file)|
  {
    seq(|FileLines(file)|, k requires 0 <= k < |FileLines(file)| => KeyFor(FileLines(file)[k], hash))
  }

  lemma {:induction false} PreparedKeys(lines: seq<DLine>, file: seq<Byte>, hash: Hash)
    requires Prepared(lines, FileLines(file), hash, |FileLines(file)|)
    ensures Keys(lines) == FileKeys(file, hash) && Chained(lines)
  {
  }

  // ----- crediting the lines of one script

  /** How many of the first n lines have no credit. */
  ghost function Uncredited(credit: seq<int>, n: nat): nat
    requires n <= |credit|
  {
    if n == 0 then 0 else Uncredited(credit, n - 1) + (if credit[n - 1] < 0 then 1 else 0)
  }

  /** Crediting one uncredited line leaves one fewer. */
  lemma {:induction false} CreditOne(credit: seq<int>, n: nat, line: nat, v: nat)
    requires line < n <= |credit| && credit[line] < 0
    ensures Uncredited(credit[line := v], n) == Uncredited(credit, n) - 1
  {
    if line < n - 1 {
      CreditOne(credit, n - 1, line, v);
    } else {
      SameUncredited(credit, credit[line := v], n - 1);
    }
  }

  lemma {:induction false} SameUncredited(a: seq<int>, b: seq<int>, n: nat)
    requires n <= |a| == |b| && forall k :: 0 <= k < n ==> (a[k] < 0 <==> b[k] < 0)
    ensures Uncredited(a, n) == Uncredited(b, n)
  {
    if n > 0 {
      SameUncredited(a, b, n - 1);
    }
  }

  lemma {:induction false} NoneUncredited(credit: seq<int>, n: nat, line: nat)
    requires n <= |credit| && Uncredited(credit, n) == 0 && line < n
    ensures credit[line] >= 0
  {
    if line < n - 1 {
      NoneUncredited(credit, n - 1, line);
    }
  }

  /** What crediting a script's insertions to v makes of a line's credit. */
  function Credited(credit: int, inserts: bool, v: nat): int {
    if credit < 0 && inserts then v else credit
  }

  lemma {:induction false} ScriptPrefix(edit: seq<nat>, i: nat)
    requires i + 3 <= |edit|
    ensures edit[..i + 3][..i] == edit[..i]
    ensures Produced(edit[..i + 3]) == Produced(edit[..i]) + edit[i] + edit[i + 2]
    ensures forall line: nat :: Inserts(edit[..i + 3], line) <==>
              Inserts(edit[..i], line) ||
              Produced(edit[..i]) + edit[i] <= line < Produced(edit[..i]) + edit[i] + edit[i + 2]
  {
    var e := edit[..i + 3];
    assert e[..|e| - 3] == edit[..i];
  }

  lemma {:induction false} ProducedGrows(edit: seq<nat>, i: nat)
    requires i <= |edit| && (|edit| - i) % 3 == 0
    ensures Produced(edit[..i]) <= Produced(edit)
    decreases |edit| - i
  {
    if i < |edit| {
      ScriptPrefix(edit, i);
      ProducedGrows(edit, i + 3);
    } else {
      assert edit[..i] == edit;
    }
  }

  /** Credits to version v every line the script inserts that has no credit yet, and
      returns how many it credited. */
  method CreditInsertions(credit: array<int>, edit: seq<nat>, v: nat) returns (credited: nat)
    requires |edit| % 3 == 0 && Produced(edit) <= credit.Length
    modifies credit
    ensures forall k :: 0 <= k < credit.Length ==> credit[k] == Credited(old(credit[k]), Inserts(edit, k), v)
    ensures Uncredited(credit[..], credit.Length) + credited == old(Uncredited(credit[..], credit.Length))
  {
    credited := 0;
    var line := 0;
    var i := 0;
    while i < |edit|
      invariant 0 <= i <= |edit| && i % 3 == 0
      invariant line == Produced(edit[..i])
      invariant forall k :: 0 <= k < credit.Length ==> credit[k] == Credited(old(credit[k]), Inserts(edit[..i], k), v)
      invariant Uncredited(credit[..], credit.Length) + credited == old(Uncredited(credit[..], credit.Length))
    {
      ScriptPrefix(edit, i);
      ProducedGrows(edit, i + 3);
      line := line + edit[i];
      var n := CreditRun(credit, line, edit[i + 2], v);
      credited := credited + n;
      line := line + edit[i + 2];
      i := i + 3;
    }
    assert edit[..i] == edit;
  }

  /** Credits the lines of one insertion. */
  method CreditRun(credit: array<int>, first: nat, count: nat, v: nat) returns (credited: nat)
    requires first + count <= credit.Length
    modifies credit
    ensures forall k :: 0 <= k < credit.Length ==>
              credit[k] == Credited(old(credit[k]), first <= k < first + count, v)
    ensures Uncredited(credit[..], credit.Length) + credited == old(Uncredited(credit[..], credit.Length))
  {
    credited := 0;
    var line := first;
    while line < first + count
      invariant first <= line <= first + count
      invariant forall k :: 0 <= k < credit.Length ==> credit[k] == Credited(old(credit[k]), first <= k < line, v)
      invariant Uncredited(credit[..], credit.Length) + credited == old(Uncredited(credit[..], credit.Length))
    {
      if credit[line] < 0 {
        CreditOne(credit[..], credit.Length, line, v);
        ghost var before := credit[..];
        credit[line] := v;
        assert credit[..] == before[line := v];
        credited := credited + 1;
      }
      line := line + 1;
    }
  }

  // ----- the walk

  datatype Info = Info(uuid: string, user: string, date: int)

  /** What a step back meets. An unreadable file is new in the version before, when
      horizon is 0, or lies below the store's horizon; finding out may itself fail. */
  datatype Parent =
    | NoParent
    | Cancelled
    | Unreadable(horizon: nat, known: bool)
    | NoInfo
    | Checkin(rid: nat, info: Info, content: seq<Byte>)

  /** The versions of the file met on the way, newest first, each with the oldest
      check-in of its run: a check-in that leaves the file unchanged only moves the
      version it continues further back. */
  datatype Trail = Trail(infos: seq<Info>, contents: seq<seq<Byte>>)

  ghost predicate AllCheckins(parents: seq<Parent>, n: nat) {
    n <= |parents| && forall k {:trigger parents[k]} :: 0 <= k < n ==> parents[k].Checkin?
  }

  ghost function TrailOf(info: Info, content: seq<Byte>, parents: seq<Parent>, n: nat): (t: Trail)
    requires AllCheckins(parents, n)
    ensures |t.infos| == |t.contents| >= 1 && t.contents[0] == content
    ensures t.contents[|t.contents| - 1] == if n == 0 then content else parents[n - 1].content
    ensures forall k :: 0 < k < |t.contents| ==> t.contents[k] != t.contents[k - 1]
  {
    if n == 0 then Trail([info], [content])
    else
      var t := TrailOf(info, content, parents, n - 1);
      var c := parents[n - 1];
      if c.content == t.contents[|t.contents| - 1] then t.(infos := t.infos[|t.infos| - 1 := c.info])
      else Trail(t.infos + [c.info], t.contents + [c.content])
  }

  /** The scripts from the older versions to the starting one: one for each version
      that can be diffed. */
  type Scripts = seq<Option<seq<nat>>>

  ghost predicate AreScripts(scripts: Scripts, contents: seq<seq<Byte>>, file: seq<Byte>, hash: Hash) {
    && |scripts| + 1 == |contents|
    && forall k :: 0 <= k < |scripts| ==>
         && (scripts[k].Some? <==> Diffable(contents[k + 1]))
         && (scripts[k].Some? ==> IsDiff(scripts[k].value, FileKeys(contents[k + 1], hash), FileKeys(file, hash)))
  }

  ghost predicate InsertsAt(scripts: Scripts, k: nat, line: nat)
    requires k < |scripts|
  {
    scripts[k].Some? && Inserts(scripts[k].value, line)
  }

  /** v is the first version whose next older version can be diffed and lacks the
      line, or -1 when there is none. */
  ghost predicate FirstLacking(scripts: Scripts, line: nat, v: int) {
    && -1 <= v < |scripts|
    && (v >= 0 ==> InsertsAt(scripts, v, line))
    && forall k :: 0 <= k < (if v < 0 then |scripts| else v) ==> !InsertsAt(scripts, k, line)
  }

  /** The check-in the walk has come to after n steps. */
  ghost function RidAt(parents: seq<Parent>, n: nat, startRid: nat): nat
    requires AllCheckins(parents, n)
  {
    if n == 0 then startRid else parents[n - 1].rid
  }

  /** After n steps the walk has come to its limit or to where it was to end. */
  ghost predicate AtBound(parents: seq<Parent>, n: nat, limit: nat, origin: nat, startRid: nat)
    requires AllCheckins(parents, n)
  {
    (limit > 0 && n >= limit) || (origin > 0 && RidAt(parents, n, startRid) == origin)
  }

  /** After n steps the walk looks at one more parent. */
  ghost predicate Looks(parents: seq<Parent>, n: nat, limit: nat, origin: nat, startRid: nat, untagged: nat)
    requires AllCheckins(parents, n)
  {
    untagged > 0 && !AtBound(parents, n, limit, origin, startRid) && n < |parents|
  }

  /** The walk stops after n steps, and no bound stopped it before. */
  ghost predicate Stopped(parents: seq<Parent>, n: nat, limit: nat, origin: nat, startRid: nat, untagged: nat)
    requires AllCheckins(parents, n)
  {
    && (Looks(parents, n, limit, origin, startRid, untagged) ==> !parents[n].Checkin?)
    && Passes(parents, n, limit, origin, startRid)
  }

  /** No bound was met in the first n steps. */
  ghost predicate Passes(parents: seq<Parent>, n: nat, limit: nat, origin: nat, startRid: nat)
    requires AllCheckins(parents, n)
  {
    forall k :: 0 <= k < n ==> !AtBound(parents, k, limit, origin, startRid)
  }

  /** What the walk met last: the horizon if it looked below it, and whether it got an answer. */
  ghost predicate Met(parents: seq<Parent>, n: nat, looks: bool, horizon: nat, ok: bool)
    requires looks ==> n < |parents|
  {
    && (ok <==> !(looks && (parents[n].Cancelled? || (parents[n].Unreadable? && !parents[n].known))))
    && horizon == if looks && parents[n].Unreadable? && parents[n].known then parents[n].horizon else 0
  }

  /** Every line's credit is the first version that the next older one lacks it. */
  ghost predicate CreditsOf(credit: seq<int>, scripts: Scripts) {
    forall line :: 0 <= line < |credit| ==> FirstLacking(scripts, line, credit[line])
  }

  lemma {:induction false} CreditsStep(
    before: seq<int>, after: seq<int>, scripts: Scripts, script: Option<seq<nat>>)
    requires |before| == |after| && CreditsOf(before, scripts)
    requires forall line :: 0 <= line < |before| ==>
               after[line] == Credited(before[line], script.Some? && Inserts(script.value, line), |scripts|)
    ensures CreditsOf(after, scripts + [script])
  {
    var longer := scripts + [script];
    forall line | 0 <= line < |after|
      ensures FirstLacking(longer, line, after[line])
    {
      assert FirstLacking(scripts, line, before[line]);
      assert forall k :: 0 <= k < |scripts| ==> InsertsAt(longer, k, line) == InsertsAt(scripts, k, line);
      assert InsertsAt(longer, |scripts|, line) <==> script.Some? && Inserts(script.value, line);
    }
  }

  /** Diffs one older version against the starting one and credits what it lacks. */
  method CreditAgainst(
    content: seq<Byte>, file: seq<Byte>, start: seq<DLine>, hash: Hash, credit: array<int>, v: nat)
    returns (credited: nat, ghost script: Option<seq<nat>>)
    requires Chained(start) && Keys(start) == FileKeys(file, hash) && credit.Length == |start|
    modifies credit
    ensures script.Some? <==> Diffable(content)
    ensures script.Some? ==> IsDiff(script.value, FileKeys(content, hash), FileKeys(file, hash))
    ensures forall k :: 0 <= k < credit.Length ==>
              credit[k] == Credited(old(credit[k]), script.Some? && Inserts(script.value, k), v)
    ensures Uncredited(credit[..], credit.Length) + credited == old(Uncredited(credit[..], credit.Length))
  {
    var lines, ok := BreakIntoLines(content, hash);
    if ok {
      PreparedKeys(lines[..], content, hash);
      var edit, _, _ := DiffAll(lines[..], start);
      credited := CreditInsertions(credit, edit, v);
      script := Some(edit);
    } else {
      credited, script := 0, None;
    }
  }

  /** The versions listed and the scripts made are those of the first n parents, and
      the credits follow from the scripts. */
  ghost predicate WalkedTo(
    parents: seq<Parent>, n: nat, info: Info, file: seq<Byte>, hash: Hash,
    versions: seq<Info>, scripts: Scripts, credit: seq<int>)
  {
    && AllCheckins(parents, n)
    && var t := TrailOf(info, file, parents, n);
       versions == t.infos && AreScripts(scripts, t.contents, file, hash) && CreditsOf(credit, scripts)
  }

  ghost function CurrentContent(parents: seq<Parent>, n: nat, file: seq<Byte>): seq<Byte>
    requires AllCheckins(parents, n)
  {
    if n == 0 then file else parents[n - 1].content
  }

  lemma {:induction false} SameContentStep(
    parents: seq<Parent>, n: nat, info: Info, file: seq<Byte>, hash: Hash,
    versions: seq<Info>, scripts: Scripts, credit: seq<int>)
    requires WalkedTo(parents, n, info, file, hash, versions, scripts, credit) && n < |parents|
    requires parents[n].Checkin? && parents[n].content == CurrentContent(parents, n, file)
    ensures |versions| > 0
    ensures WalkedTo(parents, n + 1, info, file, hash, versions[|versions| - 1 := parents[n].info], scripts, credit)
  {
  }

  lemma {:induction false} NewContentStep(
    parents: seq<Parent>, n: nat, info: Info, file: seq<Byte>, hash: Hash,
    versions: seq<Info>, scripts: Scripts, credit: seq<int>, after: seq<int>, script: Option<seq<nat>>)
    requires WalkedTo(parents, n, info, file, hash, versions, scripts, credit) && n < |parents|
    requires parents[n].Checkin? && parents[n].content != CurrentContent(parents, n, file)
    requires script.Some? <==> Diffable(parents[n].content)
    requires script.Some? ==> IsDiff(script.value, FileKeys(parents[n].content, hash), FileKeys(file, hash))
    requires CreditsOf(after, scripts + [script])
    ensures WalkedTo(parents, n + 1, info, file, hash, versions + [parents[n].info], scripts + [script], after)
  {
    MoreScripts(scripts, TrailOf(info, file, parents, n).contents, file, hash, script, parents[n].content);
  }

  lemma {:induction false} MoreScripts(
    scripts: Scripts, contents: seq<seq<Byte>>, file: seq<Byte>, hash: Hash, script: Option<seq<nat>>,
    content: seq<Byte>)
    requires AreScripts(scripts, contents, file, hash)
    requires script.Some? <==> Diffable(content)
    requires script.Some? ==> IsDiff(script.value, FileKeys(content, hash), FileKeys(file, hash))
    ensures AreScripts(scripts + [script], contents + [content], file, hash)
  {
  }

  /** One check-in further back: the version it continues, or a new one to credit against. */
  method MeetVersion(
    parents: seq<Parent>, n: nat, ghost startInfo: Info, file: seq<Byte>, start: seq<DLine>, hash: Hash,
    versions: seq<Info>, ghost scripts: Scripts, credit: array<int>, current: seq<Byte>)
    returns (versions': seq<Info>, credited: nat, ghost scripts': Scripts)
    requires Chained(start) && Keys(start) == FileKeys(file, hash) && credit.Length == |start|
    requires WalkedTo(parents, n, startInfo, file, hash, versions, scripts, credit[..])
    requires n < |parents| && parents[n].Checkin? && current == CurrentContent(parents, n, file)
    modifies credit
    ensures WalkedTo(parents, n + 1, startInfo, file, hash, versions', scripts', credit[..])
    ensures Uncredited(credit[..], |start|) + credited == old(Uncredited(credit[..], |start|))
  {
    var info, content := parents[n].info, parents[n].content;
    if content == current {
      SameContentStep(parents, n, startInfo, file, hash, versions, scripts, credit[..]);
      return versions[|versions| - 1 := info], 0, scripts;
    }
    ghost var before := credit[..];
    ghost var script;
    credited, script := CreditAgainst(content, file, start, hash, credit, |versions| - 1);
    CreditsStep(before, credit[..], scripts, script);
    NewContentStep(parents, n, startInfo, file, hash, versions, scripts, before, credit[..], script);
    versions', scripts' := versions + [info], scripts + [script];
  }

  method WalkAncestors(
    parents: seq<Parent>, limit: nat, origin: nat, startRid: nat, startInfo: Info,
    file: seq<Byte>, start: seq<DLine>, hash: Hash)
    returns (credit: array<int>, versions: seq<Info>, horizon: nat, ok: bool, ghost n: nat, ghost scripts: Scripts)
    requires Chained(start) && Keys(start) == FileKeys(file, hash)
    ensures fresh(credit) && credit.Length == |start|
    ensures WalkedTo(parents, n, startInfo, file, hash, versions, scripts, credit[..])
    ensures Stopped(parents, n, limit, origin, startRid, Uncredited(credit[..], |start|))
    ensures Met(parents, n, Looks(parents, n, limit, origin, startRid, Uncredited(credit[..], |start|)), horizon, ok)
  {
    credit := new int[|start|](_ => -1);
    AllUncredited(credit[..], |start|);
    NothingWalked(parents, startInfo, file, hash, credit[..]);
    versions, horizon, ok, n, scripts :=
      WalkFrom(parents, limit, origin, startRid, startInfo, file, start, hash, credit);
  }

  /** The check-in and its file after n steps, none of which met a bound. */
  ghost predicate CameTo(
    parents: seq<Parent>, n: nat, limit: nat, origin: nat, startRid: nat, file: seq<Byte>, rid: nat, content: seq<Byte>)
    requires AllCheckins(parents, n)
  {
    && rid == RidAt(parents, n, startRid) && content == CurrentContent(parents, n, file)
    && Passes(parents, n, limit, origin, startRid)
  }

  method WalkFrom(
    parents: seq<Parent>, limit: nat, origin: nat, startRid: nat, startInfo: Info,
    file: seq<Byte>, start: seq<DLine>, hash: Hash, credit: array<int>)
    returns (versions: seq<Info>, horizon: nat, ok: bool, ghost n: nat, ghost scripts: Scripts)
    requires Chained(start) && Keys(start) == FileKeys(file, hash) && credit.Length == |start|
    requires WalkedTo(parents, 0, startInfo, file, hash, [startInfo], [], credit[..])
    requires Uncredited(credit[..], |start|) == |start|
    modifies credit
    ensures WalkedTo(parents, n, startInfo, file, hash, versions, scripts, credit[..])
    ensures Stopped(parents, n, limit, origin, startRid, Uncredited(credit[..], |start|))
    ensures Met(parents, n, Looks(parents, n, limit, origin, startRid, Uncredited(credit[..], |start|)), horizon, ok)
  {
    versions, horizon, ok := [startInfo], 0, true;
    var untagged, steps := |start|, 0;
    var currentRid, current := startRid, file;
    scripts := [];
    while untagged > 0
      invariant WalkedTo(parents, steps, startInfo, file, hash, versions, scripts, credit[..])
      invariant CameTo(parents, steps, limit, origin, startRid, file, currentRid, current)
      invariant untagged == Uncredited(credit[..], |start|)
      invariant horizon == 0 && ok
      decreases |parents| - steps
    {
      var goes;
      goes, horizon, ok := GoesOn(parents, steps, limit, origin, startRid, currentRid, untagged);
      if !goes {
        n := steps;
        return;
      }
      var credited;
      versions, credited, scripts :=
        MeetVersion(parents, steps, startInfo, file, start, hash, versions, scripts, credit, current);
      currentRid, current := parents[steps].rid, parents[steps].content;
      untagged, steps := untagged - credited, steps + 1;
    }
    n := steps;
    NoneLeft(parents, n, limit, origin, startRid);
  }

  lemma {:induction false} NoneLeft(parents: seq<Parent>, n: nat, limit: nat, origin: nat, startRid: nat)
    requires AllCheckins(parents, n) && Passes(parents, n, limit, origin, startRid)
    ensures Stopped(parents, n, limit, origin, startRid, 0)
    ensures Met(parents, n, Looks(parents, n, limit, origin, startRid, 0), 0, true)
  {
  }

  lemma {:induction false} NothingWalked(
    parents: seq<Parent>, info: Info, file: seq<Byte>, hash: Hash, credit: seq<int>)
    requires forall k :: 0 <= k < |credit| ==> credit[k] == -1
    ensures WalkedTo(parents, 0, info, file, hash, [info], [], credit)
  {
  }

  /** Whether the walk can step back once more, and if not, what it met there. */
  method GoesOn(
    parents: seq<Parent>, n: nat, limit: nat, origin: nat, ghost startRid: nat, currentRid: nat, ghost untagged: nat)
    returns (goes: bool, horizon: nat, ok: bool)
    requires AllCheckins(parents, n) && currentRid == RidAt(parents, n, startRid) && untagged > 0
    requires Passes(parents, n, limit, origin, startRid)
    ensures goes <==> Looks(parents, n, limit, origin, startRid, untagged) && parents[n].Checkin?
    ensures goes ==> Passes(parents, n + 1, limit, origin, startRid)
    ensures !goes ==> Stopped(parents, n, limit, origin, startRid, untagged)
    ensures Met(parents, n, Looks(parents, n, limit, origin, startRid, untagged), horizon, ok)
  {
    if (limit > 0 && n >= limit) || (origin > 0 && currentRid == origin) || n >= |parents| {
      return false, 0, true;
    }
    match parents[n] {
      case Cancelled => return false, 0, false;
      case Unreadable(h, known) => return false, if known then h else 0, known;
      case Checkin(_, _, _) => return true, 0, true;
      case _ => return false, 0, true;
    }
  }

  lemma {:induction false} AllUncredited(credit: seq<int>, n: nat)
    requires n <= |credit| && forall k :: 0 <= k < n ==> credit[k] < 0
    ensures Uncredited(credit, n) == n
  {
    if n > 0 {
      AllUncredited(credit, n - 1);
    }
  }

  // ----- what a credit means

  /** The line is in a part that two versions plainly share: their common start or end, or
      the only common run of what is between, when the search keeps it. */
  ghost predicate Shares(F: seq<Key>, T: seq<Key>, line: nat, w: Run) {
    var r := MiddleOf(F, T);
    && line < |T|
    && (line < r.s2 || line >= r.e2
        || (OnlyRun(w, r, F, T) && MustSplit(r, F, T) && w.sy <= line < w.ey))
  }

  lemma {:induction false} SharedNotInserted(edit: seq<nat>, F: seq<Key>, T: seq<Key>, line: nat, w: Run)
    requires IsDiff(edit, F, T) && Shares(F, T, line, w)
    ensures !Inserts(edit, line)
  {
    var r := MiddleOf(F, T);
    if line < r.s2 {
      AllCopiedKept(edit, 0, 0, r.s1);
    } else if line >= r.e2 {
      AllCopiedKept(edit, r.e1, r.e2, |F| - r.e1);
    } else {
      MiddleRunKept(edit, w, F, T);
    }
  }

  /** A line is not credited to a version if the next older one, which can be diffed, plainly shares it. */
  lemma {:induction false} SharedNotCredited(
    parents: seq<Parent>, n: nat, info: Info, file: seq<Byte>, hash: Hash,
    versions: seq<Info>, scripts: Scripts, credit: seq<int>, line: nat, v: nat, w: Run)
    requires WalkedTo(parents, n, info, file, hash, versions, scripts, credit) && line < |credit|
    requires v + 1 < |TrailOf(info, file, parents, n).contents|
    requires Diffable(TrailOf(info, file, parents, n).contents[v + 1])
    requires Shares(FileKeys(TrailOf(info, file, parents, n).contents[v + 1], hash), FileKeys(file, hash), line, w)
    ensures credit[line] != v
  {
    var older := TrailOf(info, file, parents, n).contents[v + 1];
    assert scripts[v].Some? && FirstLacking(scripts, line, credit[line]);
    SharedNotInserted(scripts[v].value, FileKeys(older, hash), FileKeys(file, hash), line, w);
  }

  /** A line is in every version the walk met, of those that can be diffed, from the
      starting one back to the one it is credited to; without a credit, in all. */
  lemma {:induction false} CreditedLinePresent(
    parents: seq<Parent>, n: nat, info: Info, file: seq<Byte>, hash: Hash,
    versions: seq<Info>, scripts: Scripts, credit: seq<int>, line: nat, j: nat) returns (p: nat)
    requires WalkedTo(parents, n, info, file, hash, versions, scripts, credit)
    requires line < |credit| == |FileKeys(file, hash)|
    requires 0 < j < |TrailOf(info, file, parents, n).contents|
    requires Diffable(TrailOf(info, file, parents, n).contents[j])
    requires credit[line] >= 0 ==> j <= credit[line]
    ensures var older := TrailOf(info, file, parents, n).contents;
            p < |FileKeys(older[j], hash)| && FileKeys(older[j], hash)[p] == FileKeys(file, hash)[line]
  {
    var older := TrailOf(info, file, parents, n).contents;
    assert scripts[j - 1].Some? && FirstLacking(scripts, line, credit[line]);
    assert !InsertsAt(scripts, j - 1, line);
    p := CopiedFrom(scripts[j - 1].value, FileKeys(older[j], hash), FileKeys(file, hash), line);
  }

  /** A credit names a listed version, and the version listed after it, the next
      older one, can be diffed and inserts the line. */
  lemma {:induction false} CreditNamesVersion(
    parents: seq<Parent>, n: nat, info: Info, file: seq<Byte>, hash: Hash,
    versions: seq<Info>, scripts: Scripts, credit: seq<int>, line: nat)
    requires WalkedTo(parents, n, info, file, hash, versions, scripts, credit) && line < |credit|
    ensures -1 <= credit[line] < |versions| - 1
    ensures credit[line] >= 0 ==> InsertsAt(scripts, credit[line], line)
    ensures credit[line] >= 0 ==> Diffable(TrailOf(info, file, parents, n).contents[credit[line] + 1])
  {
    assert FirstLacking(scripts, line, credit[line]);
  }

  /** The first script at or after k: that of the next older version than version k
      that can be diffed. */
  ghost function NextDiffable(scripts: Scripts, k: nat): (d: nat)
    requires k <= |scripts|
    ensures k <= d <= |scripts| && (d < |scripts| ==> scripts[d].Some?)
    ensures forall i :: k <= i < d ==> scripts[i].None?
    decreases |scripts| - k
  {
    if k < |scripts| && scripts[k].None? then NextDiffable(scripts, k + 1) else k
  }

  /** The line's next older diffable version lacks it, counting from version u. */
  ghost predicate LackedAfter(scripts: Scripts, u: nat, line: nat)
    requires u < |scripts|
  {
    var d := NextDiffable(scripts, u);
    d < |scripts| && InsertsAt(scripts, d, line)
  }

  /** A version that cannot be diffed still counts as the one just newer: the credit
      is the newest version whose next older diffable version lacks the line exactly
      when it is the starting version or can be diffed itself. */
  lemma {:induction false} CreditSkipsUndiffable(scripts: Scripts, line: nat, v: nat)
    requires FirstLacking(scripts, line, v)
    ensures LackedAfter(scripts, v, line)
    ensures (forall u :: 0 <= u < v ==> !LackedAfter(scripts, u, line)) <==> v == 0 || scripts[v - 1].Some?
  {
    assert NextDiffable(scripts, v) == v;
    if v > 0 {
      if scripts[v - 1].Some? {
        forall u | 0 <= u < v ensures !LackedAfter(scripts, u, line) {
          var d := NextDiffable(scripts, u);
          assert d <= v - 1;
        }
      } else {
        assert NextDiffable(scripts, v - 1) == v;
        assert LackedAfter(scripts, v - 1, line);
      }
    }
  }

  /** v is the newest version whose next older diffable version lacks the line, or -1
      when there is none. */
  ghost predicate Right(scripts: Scripts, line: nat, v: int) {
    && -1 <= v < |scripts|
    && (v >= 0 ==> LackedAfter(scripts, v, line))
    && forall u :: 0 <= u < (if v < 0 then |scripts| else v) ==> !LackedAfter(scripts, u, line)
  }

  /** An older version that cannot be diffed hides where the line came in: no diffable
      version newer than it lacks the line, and the next diffable one after it does. */
  ghost predicate Hidden(scripts: Scripts, line: nat) {
    exists k :: 0 <= k < |scripts| && scripts[k].None? && LackedAfter(scripts, k, line)
                && forall i :: 0 <= i < k ==> !InsertsAt(scripts, i, line)
  }

  lemma {:induction false} HiddenExactly(scripts: Scripts, line: nat, v: int)
    requires FirstLacking(scripts, line, v)
    ensures Hidden(scripts, line) <==> v > 0 && scripts[v - 1].None?
  {
    if v > 0 && scripts[v - 1].None? {
      assert NextDiffable(scripts, v - 1) == NextDiffable(scripts, v) == v;
      assert LackedAfter(scripts, v - 1, line);
    }
    if Hidden(scripts, line) {
      var k :| 0 <= k < |scripts| && scripts[k].None? && LackedAfter(scripts, k, line)
               && forall i :: 0 <= i < k ==> !InsertsAt(scripts, i, line);
      var d := NextDiffable(scripts, k);
      assert d > k && InsertsAt(scripts, d, line);
      assert forall i :: 0 <= i < d ==> !InsertsAt(scripts, i, line);
      assert v == d && scripts[d - 1].None?;
    }
  }

  lemma {:induction false} RightExactly(scripts: Scripts, line: nat, v: int)
    requires FirstLacking(scripts, line, v)
    ensures Right(scripts, line, v) <==> !Hidden(scripts, line)
  {
    HiddenExactly(scripts, line, v);
    if v >= 0 {
      CreditSkipsUndiffable(scripts, line, v);
    } else {
      forall u | 0 <= u < |scripts| ensures !LackedAfter(scripts, u, line) {
        assert NextDiffable(scripts, u) < |scripts| ==> !InsertsAt(scripts, NextDiffable(scripts, u), line);
      }
    }
  }

  /** Every line of a walk is credited right exactly when no undiffable version met hides
      where a line came in. */
  lemma {:induction false} AllRightExactly(
    parents: seq<Parent>, n: nat, info: Info, file: seq<Byte>, hash: Hash,
    versions: seq<Info>, scripts: Scripts, credit: seq<int>)
    requires WalkedTo(parents, n, info, file, hash, versions, scripts, credit)
    ensures (forall line: nat :: line < |credit| ==> Right(scripts, line, credit[line])) <==>
            (forall line: nat :: line < |credit| ==> !Hidden(scripts, line))
  {
    forall line: nat | line < |credit| ensures Right(scripts, line, credit[line]) <==> !Hidden(scripts, line) {
      RightExactly(scripts, line, credit[line]);
    }
  }

  /** Where every version met can be diffed, every line is credited right. */
  lemma {:induction false} DiffableAllRight(
    parents: seq<Parent>, n: nat, info: Info, file: seq<Byte>, hash: Hash,
    versions: seq<Info>, scripts: Scripts, credit: seq<int>)
    requires WalkedTo(parents, n, info, file, hash, versions, scripts, credit)
    requires forall k {:trigger TrailOf(info, file, parents, n).contents[k]} ::
      0 < k < |TrailOf(info, file, parents, n).contents| ==> Diffable(TrailOf(info, file, parents, n).contents[k])
    ensures forall line: nat :: line < |credit| ==> Right(scripts, line, credit[line])
  {
    var contents := TrailOf(info, file, parents, n).contents;
    forall k | 0 <= k < |scripts| ensures scripts[k].Some? {
      assert Diffable(contents[k + 1]);
    }
    AllRightExactly(parents, n, info, file, hash, versions, scripts, credit);
  }

  // ----- a line credited to a version that cannot be diffed

  /** An empty file, then one with a NUL in it, then the line "a". */
  function HidingParents(a: Info, b: Info): seq<Parent> {
    [Checkin(2, a, [NUL]), Checkin(1, b, [])]
  }

  const INSERT_ONE: seq<nat> := [0, 0, 1, 0, 0, 0]

  lemma {:induction false} InsertsOne(key: Key)
    ensures IsDiff(INSERT_ONE, [], [key]) && Inserts(INSERT_ONE, 0)
  {
    var first := INSERT_ONE[..3];
    assert first == [0, 0, 1] && first[..0] == [];
    assert Consumed(first) == 0 && Produced(first) == 1 && Inserts(first, 0);
    var none: seq<Key> := [];
    assert Aligned(first[..0], none, [key]);
    assert Aligned(first, none, [key]);
    assert SameRun(none, [key], 0, 1, 0);
  }

  /** The walk over these credits the line to the middle version, whose own content
      nobody has compared, and not to the one that has it. */
  lemma {:induction false} HiddenLineMiscredited(info: Info, a: Info, b: Info, hash: Hash)
    ensures var scripts: Scripts := [None, Some(INSERT_ONE)];
            && WalkedTo(HidingParents(a, b), 2, info, [97], hash, [info, a, b], scripts, [1])
            && Hidden(scripts, 0) && !Right(scripts, 0, 1)
  {
    var scripts: Scripts := [None, Some(INSERT_ONE)];
    var parents, file: seq<Byte> := HidingParents(a, b), [97];
    HidingTrail(info, a, b);
    assert LineEnd(file, 0) == LineEnd(file, 1) == 1;
    assert FileLines(file) == [file[0..1]];
    assert !Diffable([NUL]) && Diffable([]) && FileKeys([], hash) == [];
    assert FileKeys(file, hash) == [FileKeys(file, hash)[0]];
    InsertsOne(FileKeys(file, hash)[0]);
    assert FirstLacking(scripts, 0, 1);
    HiddenExactly(scripts, 0, 1);
    RightExactly(scripts, 0, 1);
  }

  lemma {:induction false} HidingTrail(info: Info, a: Info, b: Info)
    ensures AllCheckins(HidingParents(a, b), 2)
    ensures TrailOf(info, [97], HidingParents(a, b), 2) == Trail([info, a, b], [[97], [NUL], []])
  {
    var parents := HidingParents(a, b);
    assert AllCheckins(parents, 0) && AllCheckins(parents, 1);
    assert TrailOf(info, [97], parents, 0) == Trail([info], [[97]]);
    assert TrailOf(info, [97], parents, 1) == Trail([info, a], [[97], [NUL]]);
  }

  // ----- the annotated file

  datatype Line = Line(text: seq<Byte>, version: Info, belowHorizon: bool)

  /** The version a line is reported with: the one it is credited to, else the
      horizon the walk stopped at, else the oldest version the walk reached. */
  ghost predicate Reported(line: Line, credit: int, versions: seq<Info>, horizon: nat, horizonInfo: Info)
    requires |versions| > 0 && credit < |versions|
  {
    if credit >= 0 then line.version == versions[credit] && !line.belowHorizon
    else if horizon != 0 then line.version == horizonInfo && line.belowHorizon
    else line.version == versions[|versions| - 1] && !line.belowHorizon
  }

  method ReportLines(
    keys: seq<Key>, credit: seq<int>, versions: seq<Info>, horizon: nat, horizonInfo: Info) returns (lines: seq<Line>)
    requires |versions| > 0 && |credit| == |keys| && forall k :: 0 <= k < |credit| ==> credit[k] < |versions|
    ensures |lines| == |keys|
    ensures forall k :: 0 <= k < |lines| ==>
              lines[k].text == keys[k].text && Reported(lines[k], credit[k], versions, horizon, horizonInfo)
  {
    lines := [];
    for i := 0 to |keys|
      invariant |lines| == i
      invariant forall k :: 0 <= k < i ==>
                  lines[k].text == keys[k].text && Reported(lines[k], credit[k], versions, horizon, horizonInfo)
    {
      var text, v := keys[i].text, credit[i];
      var line :=
        if v >= 0 then Line(text, versions[v], false)
        else if horizon != 0 then Line(text, horizonInfo, true)
        else Line(text, versions[|versions| - 1], false);
      lines := lines + [line];
    }
  }

  /** Annotates a file, or refuses one that cannot be diffed or a walk that fails. */
  method AnnotateFile(
    parents: seq<Parent>, limit: nat, origin: nat, startRid: nat, startInfo: Info,
    file: seq<Byte>, horizonInfo: nat -> Info, hash: Hash)
    returns (result: Option<seq<Line>>, ghost n: nat, ghost versions: seq<Info>, ghost scripts: Scripts,
             ghost credit: seq<int>, ghost horizon: nat)
    ensures !Diffable(file) ==> result.None?
    ensures Diffable(file) ==>
              && WalkedTo(parents, n, startInfo, file, hash, versions, scripts, credit)
              && |credit| == |FileKeys(file, hash)|
              && Stopped(parents, n, limit, origin, startRid, Uncredited(credit, |credit|))
              && Met(parents, n, Looks(parents, n, limit, origin, startRid, Uncredited(credit, |credit|)),
                     horizon, result.Some?)
    ensures result.Some? ==>
              && |result.value| == |credit|
              && forall k :: 0 <= k < |result.value| ==>
                   && result.value[k].text == FileKeys(file, hash)[k].text
                   && credit[k] < |versions|
                   && Reported(result.value[k], credit[k], versions, horizon, horizonInfo(horizon))
  {
    result, n, versions, scripts, credit, horizon := None, 0, [], [], [], 0;
    var start, ok := BreakIntoLines(file, hash);
    if !ok {
      return;
    }
    PreparedKeys(start[..], file, hash);
    var credits, infos, h, walked, n', scripts' :=
      WalkAncestors(parents, limit, origin, startRid, startInfo, file, start[..], hash);
    n, versions, scripts, credit, horizon := n', infos, scripts', credits[..], h;
    if !walked {
      return;
    }
    forall k | 0 <= k < |credit|
      ensures credit[k] < |versions|
    {
      CreditNamesVersion(parents, n, startInfo, file, hash, versions, scripts, credit, k);
    }
    var lines := ReportLines(Keys(start[..]), credits[..], infos, h, horizonInfo(h));
    result := Some(lines);
  }
}
