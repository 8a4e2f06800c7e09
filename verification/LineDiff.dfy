/** The line diff: the search for a long common run, the work list that replaces
    its recursion, and the edit script folded together as it goes. */
module LineDiff {
  import opened LineHashing
  import opened LineTable
  import opened LineIndent
  import opened EditScript
  import opened CommonRun
  import opened ChainSearch
  import opened DiffOutcome

  /** One item of the work list: a pair of ranges to diff or, with copyRun > 0, a
      run of copied lines to append between two of them. */
  datatype StepWork = StepWork(ranges: Ranges, copyRun: nat)

  const NO_RANGES := Ranges(0, 0, 0, 0)
  const LOWEST_SCORE := -9223300000 * 1000000000

  function Abs(x: int): nat {
    if x < 0 then -x else x
  }

  function Min(a: int, b: int): int {
    if a < b then a else b
  }

  /** Nothing has been found: no best run, no runner-up, no score. */
  predicate Fresh(r: Ranges, best: Run, prev: Run, bestScore: int) {
    best == prev == Run(r.s1, r.s1, r.s2, r.s2) && bestScore == LOWEST_SCORE
  }

  // ----- the work list

  /** The item is a pair of ranges to be searched for a common run. */
  predicate Searches(w: StepWork) {
    w.copyRun == 0 && w.ranges.s1 < w.ranges.e1 && w.ranges.s2 < w.ranges.e2
  }

  /** The item starts at (p, q) and, if it is a run, the run is common. */
  ghost predicate Starts(w: StepWork, p: nat, q: nat, from: seq<Key>, to: seq<Key>) {
    if w.copyRun > 0 then SameRun(from, to, p, q, w.copyRun)
    else w.ranges.s1 == p && w.ranges.s2 == q && InBounds(w.ranges, from, to)
  }

  ghost function EndFrom(w: StepWork, p: nat): nat {
    if w.copyRun > 0 then p + w.copyRun else w.ranges.e1
  }

  ghost function EndTo(w: StepWork, q: nat): nat {
    if w.copyRun > 0 then q + w.copyRun else w.ranges.e2
  }

  /** The work list, its last item first, covers the two files from (p, q) to
      (e1, e2) without a gap, and each run on it is common. */
  ghost predicate Tiles(work: seq<StepWork>, p: nat, q: nat, e1: nat, e2: nat, from: seq<Key>, to: seq<Key>) {
    if work == [] then p == e1 && q == e2
    else
      var w := work[|work| - 1];
      && Starts(w, p, q, from, to)
      && Tiles(work[..|work| - 1], EndFrom(w, p), EndTo(w, q), e1, e2, from, to)
  }

  /** What is left of ranges split at a run, in the order it is pushed. */
  function SplitAt(r: Ranges, m: Run): (items: seq<StepWork>)
    requires m.sx <= m.ex
    ensures |items| == 3
  {
    [StepWork(Right(r, m), 0), StepWork(NO_RANGES, m.ex - m.sx), StepWork(Left(r, m), 0)]
  }

  /** The script does what the item calls for: it copies the run, or diffs the ranges. */
  ghost predicate Done(e: seq<nat>, w: StepWork, p: nat, q: nat, from: seq<Key>, to: seq<Key>) {
    if w.copyRun > 0 then AllCopied(e, p, q, w.copyRun)
    else InBounds(w.ranges, from, to) && Diffs(e, w.ranges, from, to)
  }

  /** The script does what every item of the list calls for, from (p, q) on. */
  ghost predicate AllDone(e: seq<nat>, work: seq<StepWork>, p: nat, q: nat, from: seq<Key>, to: seq<Key>) {
    work == [] ||
    var w := work[|work| - 1];
    Done(e, w, p, q, from, to)
    && AllDone(e, work[..|work| - 1], EndFrom(w, p), EndTo(w, q), from, to)
  }

  /** Every script that goes on from edit and does all the work diffs the ranges r, and
      those tried on the way. */
  ghost predicate Leads(
    edit: seq<nat>, work: seq<StepWork>, r: Ranges, tried: seq<Ranges>, from: seq<Key>, to: seq<Key>)
  {
    forall e :: Extends(edit, e) && AllDone(e, work, Consumed(edit), Produced(edit), from, to) ==>
      InBounds(r, from, to) && Diffs(e, r, from, to) && DiffsEach(e, tried, from, to)
  }

  lemma {:induction false} DoneExtended(
    edit: seq<nat>, e: seq<nat>, w: StepWork, p: nat, q: nat, from: seq<Key>, to: seq<Key>)
    requires Extends(edit, e) && Done(edit, w, p, q, from, to)
    ensures Done(e, w, p, q, from, to)
  {
    if w.copyRun == 0 {
      DiffsExtended(edit, e, w.ranges, from, to);
    }
  }

  lemma {:induction false} PushDone(
    e: seq<nat>, rest: seq<StepWork>, w: StepWork, p: nat, q: nat, from: seq<Key>, to: seq<Key>)
    ensures AllDone(e, rest + [w], p, q, from, to) <==>
              Done(e, w, p, q, from, to) && AllDone(e, rest, EndFrom(w, p), EndTo(w, q), from, to)
  {
    assert (rest + [w])[..|rest|] == rest;
  }

  /** Doing the pieces that ranges are split into is diffing them. */
  lemma {:induction false} SplitDone(
    e: seq<nat>, rest: seq<StepWork>, r: Ranges, m: Run, from: seq<Key>, to: seq<Key>)
    requires Found(m, r, from, to) && Worth(m, r, from) && r.s2 < r.e2
    requires AllDone(e, rest + SplitAt(r, m), r.s1, r.s2, from, to)
    ensures AllDone(e, rest + [StepWork(r, 0)], r.s1, r.s2, from, to)
  {
    var items := SplitAt(r, m);
    var w1 := rest + [items[0]];
    var w2 := w1 + [items[1]];
    assert w2 + [items[2]] == rest + items;
    PushDone(e, w2, items[2], r.s1, r.s2, from, to);
    PushDone(e, w1, items[1], m.sx, m.sy, from, to);
    PushDone(e, rest, items[0], m.ex, m.ey, from, to);
    PushDone(e, rest, StepWork(r, 0), r.s1, r.s2, from, to);
    assert SplitsAt(e, r, m, from, to);
  }

  ghost function MoreSeen(seen: seq<Ranges>, w: StepWork): seq<Ranges> {
    if Searches(w) then seen + [w.ranges] else seen
  }

  lemma {:induction false} LeadsOn(
    edit: seq<nat>, more: seq<nat>, rest: seq<StepWork>, w: StepWork, r: Ranges, seen: seq<Ranges>,
    from: seq<Key>, to: seq<Key>)
    requires Leads(edit, rest + [w], r, seen, from, to) && Extends(edit, more)
    requires Done(more, w, Consumed(edit), Produced(edit), from, to)
    requires Consumed(more) == EndFrom(w, Consumed(edit)) && Produced(more) == EndTo(w, Produced(edit))
    ensures Leads(more, rest, r, MoreSeen(seen, w), from, to)
  {
    forall e | Extends(more, e) && AllDone(e, rest, Consumed(more), Produced(more), from, to)
      ensures InBounds(r, from, to) && Diffs(e, r, from, to) && DiffsEach(e, MoreSeen(seen, w), from, to)
    {
      DoneExtended(more, e, w, Consumed(edit), Produced(edit), from, to);
      PushDone(e, rest, w, Consumed(edit), Produced(edit), from, to);
      assert Extends(edit, e);
    }
  }

  lemma {:induction false} LeadsAround(
    edit: seq<nat>, rest: seq<StepWork>, w: StepWork, m: Run, r: Ranges, seen: seq<Ranges>,
    from: seq<Key>, to: seq<Key>)
    requires Leads(edit, rest + [w], r, seen, from, to) && Searches(w)
    requires w.ranges.s1 == Consumed(edit) && w.ranges.s2 == Produced(edit)
    requires Found(m, w.ranges, from, to) && Worth(m, w.ranges, from)
    ensures Leads(edit, rest + SplitAt(w.ranges, m), r, MoreSeen(seen, w), from, to)
  {
    var p, q := Consumed(edit), Produced(edit);
    forall e | Extends(edit, e) && AllDone(e, rest + SplitAt(w.ranges, m), p, q, from, to)
      ensures InBounds(r, from, to) && Diffs(e, r, from, to) && DiffsEach(e, MoreSeen(seen, w), from, to)
    {
      SplitDone(e, rest, w.ranges, m, from, to);
      PushDone(e, rest, w, p, q, from, to);
    }
  }

  /** What is left to do; it falls with every item taken. */
  ghost function Weight(work: seq<StepWork>): nat {
    if work == [] then 0 else Weight(work[..|work| - 1]) + ItemWeight(work[|work| - 1])
  }

  ghost function ItemWeight(w: StepWork): nat {
    if w.copyRun > 0 then 1
    else
      var r := w.ranges;
      1 + (if r.e1 > r.s1 then 2 * (r.e1 - r.s1) else 0) + (if r.e2 > r.s2 then 2 * (r.e2 - r.s2) else 0)
  }

  lemma {:induction false} WeightOne(rest: seq<StepWork>, w: StepWork)
    ensures Weight(rest + [w]) == Weight(rest) + ItemWeight(w)
  {
    assert (rest + [w])[..|rest|] == rest;
  }

  lemma {:induction false} PushTiles(
    rest: seq<StepWork>, w: StepWork, p: nat, q: nat, e1: nat, e2: nat, from: seq<Key>, to: seq<Key>)
    requires Starts(w, p, q, from, to) && Tiles(rest, EndFrom(w, p), EndTo(w, q), e1, e2, from, to)
    ensures Tiles(rest + [w], p, q, e1, e2, from, to)
  {
    assert (rest + [w])[..|rest|] == rest;
  }

  /** Replacing a pair of ranges by what lies left of a common run, the run, and
      what lies right of it keeps the list gapless and lightens it. */
  lemma {:induction false} SplitTiles(
    rest: seq<StepWork>, r: Ranges, m: Run, e1: nat, e2: nat, from: seq<Key>, to: seq<Key>)
    requires InBounds(r, from, to) && IsRun(m, r, from, to) && m.sx < m.ex
    requires Tiles(rest, r.e1, r.e2, e1, e2, from, to)
    ensures Tiles(rest + SplitAt(r, m), r.s1, r.s2, e1, e2, from, to)
    ensures Weight(rest + SplitAt(r, m)) < Weight(rest) + ItemWeight(StepWork(r, 0))
  {
    var items := SplitAt(r, m);
    var w1 := rest + [items[0]];
    var w2 := w1 + [items[1]];
    var w3 := w2 + [items[2]];
    PushTiles(rest, items[0], m.ex, m.ey, e1, e2, from, to);
    PushTiles(w1, items[1], m.sx, m.sy, e1, e2, from, to);
    PushTiles(w2, items[2], r.s1, r.s2, e1, e2, from, to);
    WeightOne(rest, items[0]);
    WeightOne(w1, items[1]);
    WeightOne(w2, items[2]);
    assert w3 == rest + items;
  }

  /** The two files of one diff. The columns of their line tables are kept apart:
      the lines themselves, the new file's chains, and the old file's measurements,
      which are filled in on demand. */
  class DiffContext {
    const from: seq<Key>
    const to: seq<Key>
    const nexts: seq<nat>
    const heads: seq<nat>
    const table: array<Measures>
    /** COPY, DELETE, INSERT triples. */
    var edit: seq<nat>
    /** The exhaustive search has looked at the line after the last one of from,
        where the source reads past its array. */
    var overran: bool
    /** The ranges searched for a common run so far. */
    ghost var tried: seq<Ranges>

    ghost predicate Valid()
      reads this, table
    {
      && |edit| % 3 == 0
      && AllSound(table[..], from)
      && ChainsTo(Buckets(to), nexts, heads, |to|)
      && (overran <==> OneOverruns(tried, from, to))
    }

    constructor (from: seq<DLine>, to: seq<DLine>)
      requires Chained(to)
      ensures this.from == Keys(from) && this.to == Keys(to) && edit == [] && tried == []
      ensures Valid() && fresh(table)
    {
      this.from, this.to := Keys(from), Keys(to);
      this.nexts, this.heads := Nexts(to), Heads(to);
      this.edit, this.overran, this.tried := [], false, [];
      this.table := new Measures[|from|](_ => Measures(0, 0));
      new;
      assert forall k :: 0 <= k < |from| ==> table[..][k] == Measures(0, 0);
    }

    /** Appends a triple, folding it into the last one where the source does. What
        the script then consumes, yields, copies and inserts is what it did before
        followed by the triple. */
    method AppendTriple(nCopy: nat, nDel: nat, nIns: nat)
      modifies this`edit
      ensures MeansAppend(old(edit), nCopy, nDel, nIns, edit)
      ensures CanAppend(old(edit), nCopy, nDel, nIns, from, to) ==> Aligned(edit, from, to)
    {
      ghost var before := edit;
      FoldOrPush(nCopy, nDel, nIns);
      AppendedMeans(before, nCopy, nDel, nIns, edit, from, to);
    }

    method FoldOrPush(nCopy: nat, nDel: nat, nIns: nat)
      modifies this`edit
      ensures IsAppended(old(edit), nCopy, nDel, nIns, edit)
    {
      var n := |edit|;
      if n >= 3 {
        if edit[n - 1] == 0 {
          if edit[n - 2] == 0 {
            edit := edit[n - 3 := edit[n - 3] + nCopy];
            edit := edit[n - 2 := edit[n - 2] + nDel];
            edit := edit[n - 1 := edit[n - 1] + nIns];
            return;
          }
          if nCopy == 0 {
            edit := edit[n - 2 := edit[n - 2] + nDel];
            edit := edit[n - 1 := edit[n - 1] + nIns];
            return;
          }
        }
        if nCopy == 0 && nDel == 0 {
          edit := edit[n - 1 := edit[n - 1] + nIns];
          return;
        }
      }
      edit := edit + [nCopy, nDel, nIns];
    }

    /** Follows to's hash chain for from[i]: 1 + the last line of to[s2..e2], its very
        last one excepted, that equals from[i], or 0. One is found exactly when at
        most cutoff + 1 lines come before it in its chain; more is set when the chain
        was cut off, and only then may there be one that is not found. */
    method ChainMatch(i: nat, s2: nat, e2: nat, cutoff: nat) returns (j: nat, more: bool)
      requires ChainsTo(Buckets(to), nexts, heads, |to|) && i < |from| && s2 < e2 <= |to|
      ensures j > 0 ==> s2 < j < e2 && from[i] == to[j - 1] && !more
      ensures !more ==> forall k :: s2 <= k < e2 - 1 && k >= j ==> from[i] != to[k]
      ensures more ==> j == 0
      ensures j > 0 <==> AnchorWithin(to, from[i], s2, e2, cutoff + 1)
    {
      ghost var buckets := Buckets(to);
      ghost var b := Bucket(from[i].h, |to|);
      j := heads[Bucket(from[i].h, |to|)];
      var limit := 0;
      StartsPassed(buckets, nexts, heads, to, from[i], b, s2, e2);
      while j > 0 && (j - 1 < s2 || j >= e2 || from[i] != to[j - 1])
        invariant Passed(buckets, to, from[i], b, j, s2, e2)
        invariant limit == InBucket(buckets, b, j)
        invariant limit <= cutoff + 1
        decreases j
      {
        if limit > cutoff {
          CutOff(to, from[i], j, s2, e2, cutoff);
          return 0, true;
        }
        limit := limit + 1;
        NextPasses(buckets, nexts, heads, to, from[i], b, j, s2, e2);
        j := nexts[j - 1];
      }
      PassedAll(to, from[i], j, s2, e2);
      FoundWithin(to, from[i], j, s2, e2, cutoff);
      more := false;
    }

    /** Grows the match of from[i] and to[j] backward and forward: the whole common
        run through it that the ranges hold. */
    method ExtendMatch(i: nat, j: nat, r: Ranges) returns (m: Run)
      requires InBounds(r, from, to)
      requires r.s1 <= i < r.e1 && r.s2 <= j < r.e2 && from[i] == to[j]
      ensures IsRun(m, r, from, to) && m.sx <= i < m.ex && m.sx - m.sy == i - j
      ensures m.sx == r.s1 || m.sy == r.s2 || from[m.sx - 1] != to[m.sy - 1]
      ensures m.ex == r.e1 || m.ey == r.e2 || from[m.ex] != to[m.ey]
    {
      var back := Min(i - r.s1, j - r.s2);
      var k := 0;
      while k < back && from[i - 1 - k] == to[j - 1 - k]
        invariant 0 <= k <= back
        invariant SameRun(from, to, i - k, j - k, k + 1)
      {
        assert SameRun(from, to, i - 1 - k, j - 1 - k, 1);
        JoinRuns(from, to, i - 1 - k, j - 1 - k, 1, k + 1);
        k := k + 1;
      }
      var sx, sy := i - k, j - k;
      var ex, ey := i + 1, j + 1;
      var forward := Min(r.e1 - ex, r.e2 - ey);
      k := 0;
      while k < forward && from[ex + k] == to[ey + k]
        invariant 0 <= k <= forward
        invariant SameRun(from, to, sx, sy, ex - sx + k)
      {
        k := k + 1;
      }
      m := Run(sx, ex + k, sy, ey + k);
    }

    /** The length of the common run at (i, j), which has at least one line. */
    method RunLength(i: nat, j: nat, r: Ranges) returns (k: nat)
      requires InBounds(r, from, to)
      requires r.s1 <= i < r.e1 && r.s2 <= j < r.e2 && from[i] == to[j]
      ensures k >= 1 && Fits(r, from, to, i, j, k) && !Fits(r, from, to, i, j, k + 1)
    {
      k := 1;
      while i + k < r.e1 && j + k < r.e2 && from[i + k] == to[j + k]
        invariant k >= 1 && Fits(r, from, to, i, j, k)
        decreases r.e1 - k
      {
        k := k + 1;
      }
    }

    /** One column of the exhaustive search. It is passed over when the line that a
        longer run would have to end with differs. That line is from[i + longest];
        when a run already found in this row reaches the end of the range it is
        from[e1], which no run in the range can hold, so the column is passed over
        unread and the look is recorded. */
    method ScanColumn(i: nat, j: nat, r: Ranges, best: Run) returns (m: Run, looks: bool)
      requires InBounds(r, from, to) && IsRun(best, r, from, to)
      requires r.s1 <= i < r.e1 && r.s2 <= j && j + (best.ex - best.sx) < r.e2
      ensures IsRun(m, r, from, to) && m.ex - m.sx >= best.ex - best.sx
      ensures m == best || (m.sx == i && m.sy == j)
      ensures !Fits(r, from, to, i, j, m.ex - m.sx + 1)
      ensures looks <==> from[i] == to[j] && i + (best.ex - best.sx) >= r.e1
    {
      m, looks := best, false;
      var longest := best.ex - best.sx;
      if from[i] != to[j] {
        ColumnDone(r, from, to, i, j, longest);
      } else if i + longest >= r.e1 {
        looks := true;
      } else if longest > 0 && from[i + longest] != to[j + longest] {
        ColumnDone(r, from, to, i, j, longest);
      } else {
        var k := RunLength(i, j, r);
        if k > longest {
          m := Run(i, i + k, j, j + k);
        } else {
          NotLonger(r, from, to, i, j, k + 1, longest + 1);
        }
      }
    }

    /** One row of the exhaustive search: the runs that start at from[i]. */
    method ScanRow(i: nat, r: Ranges, best: Run) returns (m: Run, looked: bool)
      requires InBounds(r, from, to) && IsRun(best, r, from, to)
      requires r.s1 <= i && i + (best.ex - best.sx) < r.e1
      ensures IsRun(m, r, from, to) && m.ex - m.sx >= best.ex - best.sx
      ensures m == best || m.sx == i
      ensures RowLacks(r, from, to, i, r.s2, r.e2, m.ex - m.sx + 1)
      ensures looked <==> RowOverlooks(r, from, to, i, r.e2)
    {
      m, looked := best, false;
      var j := r.s2;
      while j + (m.ex - m.sx) < r.e2
        invariant r.s2 <= j
        invariant IsRun(m, r, from, to) && m.ex - m.sx >= best.ex - best.sx
        invariant m == best || (m.sx == i && m.sy < j)
        invariant RowLacks(r, from, to, i, r.s2, j, m.ex - m.sx + 1)
        invariant looked <==> RowOverlooks(r, from, to, i, j)
        decreases r.e2 - j
      {
        LooksWhen(r, from, to, i, j, best, m);
        var before := m;
        var looks;
        m, looks := ScanColumn(i, j, r, before);
        RowLacksMore(r, from, to, i, r.s2, j, before.ex - before.sx + 1, m.ex - m.sx + 1);
        looked := looked || looks;
        j := j + 1;
      }
      RowEnd(r, from, to, i, j, best, m);
    }

    /** The exhaustive search: a common run as long as any in the ranges. overran is
        set exactly when the source's look-ahead goes past the end of from. */
    method OptimalLCS(r: Ranges) returns (m: Run)
      requires InBounds(r, from, to)
      modifies this`overran
      ensures Longest(m, r, from, to)
      ensures overran <==> old(overran) || (r.e1 == |from| && Overlooks(r, from, to, r.e1))
    {
      m := Run(r.s1, r.s1, r.s2, r.s2);
      var i := r.s1;
      while i + (m.ex - m.sx) < r.e1
        invariant r.s1 <= i <= r.e1 && IsRun(m, r, from, to)
        invariant m.sx < i || m.sx == m.ex
        invariant RowsLack(r, from, to, i, m.ex - m.sx + 1)
        invariant overran <==> old(overran) || (r.e1 == |from| && Overlooks(r, from, to, i))
        decreases r.e1 - i
      {
        var best := m;
        var looked;
        m, looked := ScanRow(i, r, best);
        RowsStep(r, from, to, i, best, m, looked);
        overran := overran || (looked && r.e1 == |from|);
        i := i + 1;
      }
      LackingLongerIsLongest(m, r, from, to, i);
      RowsEnd(r, from, to, i, m);
    }

    /** Finds a long run of lines common to the two ranges, preferring one near the
        middle: lines with a match on to's hash chains are grown to runs and scored.
        On small ranges where that finds nothing the search is exhaustive, so there
        an empty result means that no line is common. */
    method LongestCommonSequence(r: Ranges) returns (m: Run)
      requires ChainsTo(Buckets(to), nexts, heads, |to|)
      requires InBounds(r, from, to) && r.s1 < r.e1 && r.s2 < r.e2
      modifies this`overran
      ensures Found(m, r, from, to)
      ensures Small(r) && m.sx == m.ex ==> Longest(m, r, from, to)
      ensures overran <==> old(overran) || Overruns(r, from, to)
    {
      m := AnchoredRun(r);
      if Small(r) {
        SmallScorable(r);
      }
      if m.sx == m.ex && (r.e1 - r.s1) * (r.e2 - r.s2) < 2500 {
        m := OptimalLCS(r);
        LongestIsWhole(m, r, from, to);
      }
    }

    /** The hashing heuristic: chains are followed to a cutoff that is raised while
        it cuts any of them off and nothing has been found. */
    method AnchoredRun(r: Ranges) returns (best: Run)
      requires ChainsTo(Buckets(to), nexts, heads, |to|)
      requires InBounds(r, from, to) && r.s1 < r.e1 && r.s2 < r.e2
      ensures IsRun(best, r, from, to) && (best.sx < best.ex ==> Whole(best, r, from, to))
      ensures Scorable(r) ==> (best.sx == best.ex <==> !Anchored(r, from, to))
    {
      var span := (r.e1 - r.s1) + (r.e2 - r.s2);
      best := Run(r.s1, r.s1, r.s2, r.s2);
      var prev, bestScore, cutoff := best, LOWEST_SCORE, 4;
      while true
        invariant cutoff == 4 || cutoff == 16 || cutoff == 64
        invariant IsRun(best, r, from, to) && (best.sx < best.ex ==> Whole(best, r, from, to))
        invariant Scorable(r) ==> Fresh(r, best, prev, bestScore)
        decreases 256 - cutoff
      {
        var more;
        best, prev, bestScore, more := AnchorPass(r, span, cutoff, best, prev, bestScore);
        if best.sx != best.ex || !more || cutoff == 64 {
          if Scorable(r) {
            PassDecides(r, from, to, cutoff, more);
          }
          break;
        }
        cutoff := cutoff * 4;
      }
    }

    /** One pass over the lines of the range with one cutoff. */
    method AnchorPass(r: Ranges, span: nat, cutoff: nat, best0: Run, prev0: Run, score0: int)
      returns (best: Run, prev: Run, bestScore: int, more: bool)
      requires ChainsTo(Buckets(to), nexts, heads, |to|)
      requires InBounds(r, from, to) && r.s1 < r.e1 && r.s2 < r.e2 && span == (r.e1 - r.s1) + (r.e2 - r.s2)
      requires IsRun(best0, r, from, to) && (best0.sx < best0.ex ==> Whole(best0, r, from, to))
      requires Scorable(r) ==> Fresh(r, best0, prev0, score0)
      ensures IsRun(best, r, from, to) && (best.sx < best.ex ==> Whole(best, r, from, to))
      ensures Scorable(r) && best.sx == best.ex ==> Fresh(r, best, prev, bestScore)
      ensures Scorable(r) ==> (best.sx == best.ex <==> AnchorFree(r, from, to, r.e1, cutoff + 1))
      ensures !more && AnchorFree(r, from, to, r.e1, cutoff + 1) ==> Anchorless(r, from, to, r.e1)
    {
      var mid := (r.e1 + r.s1) / 2;
      best, prev, bestScore, more := best0, prev0, score0, false;
      var i := r.s1;
      while i < r.e1
        invariant r.s1 <= i <= r.e1 && IsRun(best, r, from, to)
        invariant best.sx < best.ex ==> Whole(best, r, from, to)
        invariant Scorable(r) ==> (best.sx == best.ex <==> AnchorFree(r, from, to, i, cutoff + 1))
        invariant Scorable(r) && best.sx == best.ex ==> Fresh(r, best, prev, bestScore)
        invariant !more && AnchorFree(r, from, to, i, cutoff + 1) ==> Anchorless(r, from, to, i)
      {
        var j, cut := ChainMatch(i, r.s2, r.e2, cutoff);
        more := more || cut;
        if j > 0 {
          best, prev, bestScore := Consider(i, j, r, span, mid, best, prev, bestScore);
        }
        i := i + 1;
      }
    }

    /** The run grown from a match becomes the best one if it scores higher, unless the
        match lies in the best run or the runner-up. */
    method Consider(i: nat, j: nat, r: Ranges, span: nat, mid: nat, best0: Run, prev0: Run, score0: int)
      returns (best: Run, prev: Run, bestScore: int)
      requires InBounds(r, from, to) && span == (r.e1 - r.s1) + (r.e2 - r.s2) && mid == (r.e1 + r.s1) / 2
      requires r.s1 <= i < r.e1 && r.s2 < j < r.e2 && from[i] == to[j - 1] && IsRun(best0, r, from, to)
      requires best0.sx < best0.ex ==> Whole(best0, r, from, to)
      requires Scorable(r) && best0.sx == best0.ex ==> Fresh(r, best0, prev0, score0)
      ensures IsRun(best, r, from, to) && (best.sx < best.ex ==> Whole(best, r, from, to))
      ensures Scorable(r) ==> best.sx != best.ex
    {
      best, prev, bestScore := best0, prev0, score0;
      if !(i < best.ex && best.sy <= j < best.ey) && !(i < prev.ex && prev.sy <= j < prev.ey) {
        var m := ExtendMatch(i, j - 1, r);
        var skew := Abs((m.sx - r.s1) - (m.sy - r.s2));
        var dist := Abs((m.sx + m.ex) / 2 - mid);
        var score := (m.ex - m.sx) * span - (skew + dist);
        if Scorable(r) {
          ScoreAboveLowest(r.e1 - r.s1, r.e2 - r.s2, m.ex - m.sx, skew, dist);
        }
        if score > bestScore {
          bestScore := score;
          best := m;
        } else if m.ex > prev.ex {
          prev := m;
        }
      }
    }

    /** The common run to split the ranges at, if there is one worth it: a run of more
        than five lines, or a shorter one that is not an artifact of indentation. */
    method PickRun(r: Ranges) returns (m: Run, take: bool)
      requires Valid() && InBounds(r, from, to) && r.s1 < r.e1 && r.s2 < r.e2
      modifies this`overran, this`tried, table
      ensures Valid() && Found(m, r, from, to)
      ensures tried == old(tried) + [r]
      ensures take <==> Worth(m, r, from)
    {
      m := LongestCommonSequence(r);
      MoreTried(tried, r, from, to);
      tried := tried + [r];
      take := m.ex > m.sx + 5;
      if !take && m.ex > m.sx {
        take := LikelyNotIndentArtifact(table, from, r.s1, m.sx, m.ex, r.e1);
      }
    }

    /** Takes one item off the work list: either the script is carried over it, or
        its ranges are split at a common run. */
    method TakeItem(w: StepWork) returns (m: Run, split: bool)
      requires Valid() && Aligned(edit, from, to)
      requires Starts(w, Consumed(edit), Produced(edit), from, to)
      modifies this`edit, this`overran, this`tried, table
      ensures Valid() && Aligned(edit, from, to)
      ensures !split ==> Consumed(edit) == EndFrom(w, old(Consumed(edit)))
      ensures !split ==> Produced(edit) == EndTo(w, old(Produced(edit)))
      ensures split ==> edit == old(edit) && w.copyRun == 0
      ensures split ==> Searches(w) && Found(m, w.ranges, from, to) && Worth(m, w.ranges, from)
      ensures Extends(old(edit), edit)
      ensures !split ==> Done(edit, w, old(Consumed(edit)), old(Produced(edit)), from, to)
      ensures tried == if Searches(w) then old(tried) + [w.ranges] else old(tried)
    {
      var r := w.ranges;
      m, split := Run(0, 0, 0, 0), false;
      if w.copyRun > 0 {
        AppendTriple(w.copyRun, 0, 0);
      } else if r.e1 <= r.s1 {
        if r.e2 > r.s2 {
          AppendTriple(0, 0, r.e2 - r.s2);
        }
      } else if r.e2 <= r.s2 {
        AppendTriple(0, r.e1 - r.s1, 0);
      } else {
        m, split := PickRun(r);
        if !split {
          AppendTriple(0, r.e1 - r.s1, r.e2 - r.s2);
          assert SplitsAt(edit, r, m, from, to);
        }
      }
    }

    /** Diffs a pair of ranges, the script so far having come to where they start. */
    method DiffStep(r: Ranges)
      requires Valid() && InBounds(r, from, to)
      requires Aligned(edit, from, to) && Consumed(edit) == r.s1 && Produced(edit) == r.s2
      modifies this`edit, this`overran, this`tried, table
      ensures Valid() && Aligned(edit, from, to)
      ensures Consumed(edit) == r.e1 && Produced(edit) == r.e2
      ensures old(tried) <= tried
      ensures r.s1 < r.e1 && r.s2 < r.e2 ==> r in tried
      ensures Extends(old(edit), edit) && Diffs(edit, r, from, to)
      ensures DiffsEach(edit, tried[|old(tried)|..], from, to)
    {
      var work := [StepWork(r, 0)];
      assert work[..0] == [];
      while |work| > 0
        invariant Valid() && Aligned(edit, from, to)
        invariant Tiles(work, Consumed(edit), Produced(edit), r.e1, r.e2, from, to)
        invariant old(tried) <= tried && Extends(old(edit), edit)
        invariant r.s1 < r.e1 && r.s2 < r.e2 ==> r in tried || work == [StepWork(r, 0)]
        invariant Leads(edit, work, r, tried[|old(tried)|..], from, to)
        decreases Weight(work)
      {
        ghost var seen := tried[|old(tried)|..];
        work := NextWork(work, r, seen);
        assert tried[|old(tried)|..] == seen || tried[|old(tried)|..] == seen + [tried[|tried| - 1]];
      }
      assert AllDone(edit, work, Consumed(edit), Produced(edit), from, to);
    }

    /** Takes the last item of the work list and leaves what is left to do. */
    method NextWork(work: seq<StepWork>, ghost r: Ranges, ghost seen: seq<Ranges>) returns (left: seq<StepWork>)
      requires Valid() && Aligned(edit, from, to) && |work| > 0
      requires Tiles(work, Consumed(edit), Produced(edit), r.e1, r.e2, from, to)
      requires Leads(edit, work, r, seen, from, to)
      modifies this`edit, this`overran, this`tried, table
      ensures Valid() && Aligned(edit, from, to)
      ensures Tiles(left, Consumed(edit), Produced(edit), r.e1, r.e2, from, to)
      ensures Weight(left) < Weight(work) && Extends(old(edit), edit)
      ensures Leads(edit, left, r, MoreSeen(seen, work[|work| - 1]), from, to)
      ensures var w := work[|work| - 1]; tried == if Searches(w) then old(tried) + [w.ranges] else old(tried)
    {
      var w := work[|work| - 1];
      var rest := work[..|work| - 1];
      assert work == rest + [w];
      WeightOne(rest, w);
      var m, split := TakeItem(w);
      left := rest;
      if !split {
        LeadsOn(old(edit), edit, rest, w, r, seen, from, to);
      }
      if split {
        LeadsAround(edit, rest, w, m, r, seen, from, to);
        SplitTiles(rest, w.ranges, m, r.e1, r.e2, from, to);
        // Pushed in reverse: the left range is taken first, then the run.
        left := rest + SplitAt(w.ranges, m);
      }
    }

    /** Copies n lines, if there are any. */
    method CopyEnd(n: nat)
      requires Valid() && CanAppend(edit, n, 0, 0, from, to)
      modifies this`edit
      ensures Valid() && Aligned(edit, from, to) && Extends(old(edit), edit)
      ensures Consumed(edit) == old(Consumed(edit)) + n && Produced(edit) == old(Produced(edit)) + n
      ensures AllCopied(edit, old(Consumed(edit)), old(Produced(edit)), n)
    {
      if n > 0 {
        AppendTriple(n, 0, 0);
        AppendExtends(old(edit), n, 0, 0, edit);
      }
    }

    /** Lines common at the end and at the start are set aside, the rest diffed. */
    method DiffWhole()
      requires Valid() && edit == [] && tried == []
      modifies this`edit, this`overran, this`tried, table
      ensures Valid() && Aligned(edit, from, to)
      ensures Consumed(edit) == |from| && Produced(edit) == |to|
      ensures SearchesMiddle(from, to) ==> MiddleOf(from, to) in tried
      ensures DiffsWhole(edit, from, to) && DiffsEach(edit, tried, from, to)
    {
      var s, e1, e2 := CommonEnds(from, to);
      DiffAround(Ranges(s, e1, s, e2));
    }

    /** The lines before the ranges and after them are copied, the ranges diffed. */
    method DiffAround(r: Ranges)
      requires Valid() && edit == [] && tried == []
      requires InBounds(r, from, to) && r.s1 == r.s2 && |from| - r.e1 == |to| - r.e2
      requires SameRun(from, to, 0, 0, r.s1) && SameRun(from, to, r.e1, r.e2, |from| - r.e1)
      modifies this`edit, this`overran, this`tried, table
      ensures Valid() && Aligned(edit, from, to)
      ensures Consumed(edit) == |from| && Produced(edit) == |to|
      ensures r.s1 < r.e1 && r.s2 < r.e2 ==> r in tried
      ensures PartsDone(edit, r, from, to) && DiffsEach(edit, tried, from, to)
    {
      DiffUpTo(r);
      ghost var before := edit;
      CopyEnd(|from| - r.e1);
      PartsExtended(before, edit, r, from, to);
      EachExtended(before, edit, tried, from, to);
    }

    method DiffUpTo(r: Ranges)
      requires Valid() && edit == [] && tried == []
      requires InBounds(r, from, to) && r.s1 == r.s2 && SameRun(from, to, 0, 0, r.s1)
      modifies this`edit, this`overran, this`tried, table
      ensures Valid() && Aligned(edit, from, to)
      ensures Consumed(edit) == r.e1 && Produced(edit) == r.e2
      ensures r.s1 < r.e1 && r.s2 < r.e2 ==> r in tried
      ensures AllCopied(edit, 0, 0, r.s1) && Diffs(edit, r, from, to) && DiffsEach(edit, tried, from, to)
    {
      CopyEnd(r.s1);
      ghost var before := edit;
      DiffStep(r);
      CopiedExtended(before, edit, 0, 0, r.s1);
      assert tried[0..] == tried;
    }
  }

  /** How many lines F[..e1] and T[..e2] have in common at the end. */
  function CommonSuffix(F: seq<Key>, T: seq<Key>, e1: nat, e2: nat): (n: nat)
    requires e1 <= |F| && e2 <= |T|
    ensures n <= e1 && n <= e2
  {
    if e1 > 0 && e2 > 0 && F[e1 - 1] == T[e2 - 1] then CommonSuffix(F, T, e1 - 1, e2 - 1) + 1 else 0
  }

  /** How far F[s..e1] and T[s..e2] agree. */
  function CommonPrefix(F: seq<Key>, T: seq<Key>, s: nat, e1: nat, e2: nat): (n: nat)
    requires s <= e1 <= |F| && s <= e2 <= |T|
    ensures s + n <= e1 && s + n <= e2
    decreases e1 - s
  {
    if s < e1 && s < e2 && F[s] == T[s] then CommonPrefix(F, T, s + 1, e1, e2) + 1 else 0
  }

  /** What is left of two files between their common start and their common end. */
  function MiddleOf(F: seq<Key>, T: seq<Key>): (r: Ranges)
    ensures r.s1 <= r.e1 <= |F| && r.s2 <= r.e2 <= |T|
  {
    var n := CommonSuffix(F, T, |F|, |T|);
    var s := CommonPrefix(F, T, 0, |F| - n, |T| - n);
    Ranges(s, |F| - n, s, |T| - n)
  }

  /** The script copies the lines before the ranges and after them, and diffs the ranges. */
  ghost predicate PartsDone(edit: seq<nat>, r: Ranges, F: seq<Key>, T: seq<Key>)
    requires InBounds(r, F, T)
  {
    && AllCopied(edit, 0, 0, r.s1)
    && Diffs(edit, r, F, T)
    && AllCopied(edit, r.e1, r.e2, |F| - r.e1)
  }

  /** The script copies what is common at the start and at the end, and diffs the middle. */
  ghost predicate DiffsWhole(edit: seq<nat>, F: seq<Key>, T: seq<Key>) {
    PartsDone(edit, MiddleOf(F, T), F, T)
  }

  lemma {:induction false} WholeExtended(edit: seq<nat>, e: seq<nat>, F: seq<Key>, T: seq<Key>)
    requires Extends(edit, e) && DiffsWhole(edit, F, T)
    ensures DiffsWhole(e, F, T)
  {
    var r := MiddleOf(F, T);
    CopiedExtended(edit, e, 0, 0, r.s1);
    DiffsExtended(edit, e, r, F, T);
    CopiedExtended(edit, e, r.e1, r.e2, |F| - r.e1);
  }

  /** What was done stays done while the end is copied. */
  lemma {:induction false} PartsExtended(edit: seq<nat>, e: seq<nat>, r: Ranges, F: seq<Key>, T: seq<Key>)
    requires InBounds(r, F, T) && Extends(edit, e)
    requires AllCopied(edit, 0, 0, r.s1) && Diffs(edit, r, F, T) && AllCopied(e, r.e1, r.e2, |F| - r.e1)
    ensures PartsDone(e, r, F, T)
  {
    CopiedExtended(edit, e, 0, 0, r.s1);
    DiffsExtended(edit, e, r, F, T);
  }

  predicate SearchesMiddle(F: seq<Key>, T: seq<Key>) {
    MiddleOf(F, T).s1 < MiddleOf(F, T).e1 && MiddleOf(F, T).s2 < MiddleOf(F, T).e2
  }

  /** The lines common at the end and, short of those, at the start. */
  method CommonEnds(F: seq<Key>, T: seq<Key>) returns (s: nat, e1: nat, e2: nat)
    ensures s <= e1 <= |F| && s <= e2 <= |T| && |F| - e1 == |T| - e2
    ensures SameRun(F, T, 0, 0, s) && SameRun(F, T, e1, e2, |F| - e1)
    ensures Ranges(s, e1, s, e2) == MiddleOf(F, T)
  {
    e1, e2 := |F|, |T|;
    while e1 > 0 && e2 > 0 && F[e1 - 1] == T[e2 - 1]
      invariant 0 <= e1 <= |F| && 0 <= e2 <= |T| && |F| - e1 == |T| - e2
      invariant SameRun(F, T, e1, e2, |F| - e1)
      invariant CommonSuffix(F, T, |F|, |T|) == |F| - e1 + CommonSuffix(F, T, e1, e2)
    {
      e1, e2 := e1 - 1, e2 - 1;
      assert SameRun(F, T, e1, e2, 1);
      JoinRuns(F, T, e1, e2, 1, |F| - e1 - 1);
    }
    s := 0;
    while s < Min(e1, e2) && F[s] == T[s]
      invariant 0 <= s <= Min(e1, e2) && SameRun(F, T, 0, 0, s)
      invariant CommonPrefix(F, T, 0, e1, e2) == s + CommonPrefix(F, T, s, e1, e2)
    {
      s := s + 1;
    }
  }

  /** edit is a whole script from F to T: it stays aligned, walks over all of F,
      yields all of T, and ends in an empty triple. */
  ghost predicate IsScript(edit: seq<nat>, F: seq<Key>, T: seq<Key>) {
    && |edit| % 3 == 0 && |edit| >= 3
    && edit[|edit| - 3] == edit[|edit| - 2] == edit[|edit| - 1] == 0
    && Aligned(edit, F, T)
    && Consumed(edit) == |F| && Produced(edit) == |T|
  }

  /** What the diff of F and T is. */
  ghost predicate IsDiff(edit: seq<nat>, F: seq<Key>, T: seq<Key>) {
    IsScript(edit, F, T) && DiffsWhole(edit, F, T)
  }

  /** Run as a patch, such a script turns the old file into the new one. */
  lemma {:induction false} ScriptPatches(edit: seq<nat>, F: seq<Key>, T: seq<Key>)
    requires IsScript(edit, F, T)
    ensures Patch(edit, F, Inserted(edit, T)) == T
  {
    PatchRebuilds(edit, F, T);
    assert T[..|T|] == T;
  }

  lemma {:induction false} ClosedScript(edit: seq<nat>, F: seq<Key>, T: seq<Key>)
    requires |edit| % 3 == 0
    requires Aligned(edit, F, T) && Consumed(edit) == |F| && Produced(edit) == |T|
    ensures IsScript(edit + [0, 0, 0], F, T) && Extends(edit, edit + [0, 0, 0])
  {
    AppendUnfolds(edit, 0, 0, 0, F, T);
  }

  /** The whole diff. overran reports that the source would have stopped at an index
      past the end of the old file: exactly when one of the ranges tried overruns, and
      never unless a bucket of the new file is crowded. */
  method DiffAll(from: seq<DLine>, to: seq<DLine>) returns (edit: seq<nat>, overran: bool, ghost tried: seq<Ranges>)
    requires Chained(to)
    ensures IsDiff(edit, Keys(from), Keys(to))
    ensures Patch(edit, Keys(from), Inserted(edit, Keys(to))) == Keys(to)
    ensures overran <==> OneOverruns(tried, Keys(from), Keys(to))
    ensures SearchesMiddle(Keys(from), Keys(to)) ==> MiddleOf(Keys(from), Keys(to)) in tried
    ensures overran ==> Crowded(Keys(to))
    ensures DiffsEach(edit, tried, Keys(from), Keys(to))
    ensures forall r :: r in tried && InBounds(r, Keys(from), Keys(to)) && MustSplit(r, Keys(from), Keys(to)) ==>
              KeepsRun(edit, r, Keys(from), Keys(to))
  {
    var p := new DiffContext(from, to);
    p.DiffWhole();
    ClosedScript(p.edit, p.from, p.to);
    WholeExtended(p.edit, p.edit + [0, 0, 0], p.from, p.to);
    EachExtended(p.edit, p.edit + [0, 0, 0], p.tried, p.from, p.to);
    edit, overran, tried := p.edit + [0, 0, 0], p.overran, p.tried;
    ScriptPatches(edit, p.from, p.to);
    OverrunNeedsCrowd(tried, p.from, p.to);
    forall r | r in tried && MustSplit(r, p.from, p.to) ensures KeepsRun(edit, r, p.from, p.to) {
      var _ := RunKept(edit, r, p.from, p.to);
    }
  }

  /** Where the middles of two files have one common run and keep it, its lines are not inserted. */
  lemma {:induction false} MiddleRunKept(edit: seq<nat>, w: Run, F: seq<Key>, T: seq<Key>)
    requires DiffsWhole(edit, F, T) && MustSplit(MiddleOf(F, T), F, T) && OnlyRun(w, MiddleOf(F, T), F, T)
    ensures AllCopied(edit, w.sx, w.sy, w.ex - w.sx)
    ensures forall q :: w.sy <= q < w.ey ==> !Inserts(edit, q)
  {
    OnlyRunKept(edit, w, MiddleOf(F, T), F, T);
  }

  /** Of [a, x, b] and [c, x, d], with nothing else in common, the diff copies x. */
  lemma {:induction false} SharedLineKept(edit: seq<nat>, a: Key, b: Key, c: Key, d: Key, x: Key)
    requires {a, b, x} !! {c, d} && x != a && x != b
    requires DiffsWhole(edit, [a, x, b], [c, x, d])
    ensures Copies(edit, 1, 1) && !Inserts(edit, 1)
  {
    var F, T, r, w := [a, x, b], [c, x, d], Ranges(0, 3, 0, 3), Run(1, 2, 1, 2);
    assert CommonSuffix(F, T, 3, 3) == 0 && CommonPrefix(F, T, 0, 3, 3) == 0;
    assert MiddleOf(F, T) == r;
    SharedOnly(a, b, c, d, x);
    SharedAnchored(a, b, c, d, x);
    MiddleRunKept(edit, w, F, T);
    assert Pairs(1, 1, 1, 1, 1);
  }

  lemma {:induction false} SharedOnly(a: Key, b: Key, c: Key, d: Key, x: Key)
    requires {a, b, x} !! {c, d} && x != a && x != b
    ensures OnlyRun(Run(1, 2, 1, 2), Ranges(0, 3, 0, 3), [a, x, b], [c, x, d])
  {
    var F, T, r := [a, x, b], [c, x, d], Ranges(0, 3, 0, 3);
    forall i, j | 0 <= i < 3 && 0 <= j < 3 && F[i] == T[j] ensures i == j == 1 {
    }
    forall m | IsRun(m, r, F, T) && m.sx < m.ex ensures m == Run(1, 2, 1, 2) {
      RunAt(F, T, m.sx, m.sy, m.ex - m.sx, 0);
      RunAt(F, T, m.sx, m.sy, m.ex - m.sx, m.ex - m.sx - 1);
    }
    assert SameRun(F, T, 1, 1, 1);
  }

  lemma {:induction false} SharedAnchored(a: Key, b: Key, c: Key, d: Key, x: Key)
    ensures Anchored(Ranges(0, 3, 0, 3), [a, x, b], [c, x, d])
  {
    var F, T := [a, x, b], [c, x, d];
    assert Anchor(T, F[1], 0, 3, 1);
    NoMoreThanLines(Buckets(T), Bucket(T[1].h, |T|), 2);
  }

  // ----- the exhaustive search

  /** Column j leaves no longer run behind: none starts there, or the one that does
      has been taken. */
  lemma {:induction false} ColumnDone(r: Ranges, F: seq<Key>, T: seq<Key>, i: nat, j: nat, n: nat)
    requires InBounds(r, F, T) && i < r.e1 && j < r.e2
    requires F[i] != T[j] || i + n >= r.e1 || j + n >= r.e2 || F[i + n] != T[j + n]
    ensures !Fits(r, F, T, i, j, n + 1)
  {
    if Fits(r, F, T, i, j, n + 1) {
      RunAt(F, T, i, j, n + 1, 0);
    }
  }

  lemma {:induction false} NotLonger(r: Ranges, F: seq<Key>, T: seq<Key>, i: nat, j: nat, m: nat, n: nat)
    requires !Fits(r, F, T, i, j, m) && m <= n
    ensures !Fits(r, F, T, i, j, n)
  {
    if Fits(r, F, T, i, j, n) {
      FitsShorter(r, F, T, i, j, m, n);
    }
  }

  /** The search looks past its range at column j just when it is to. */
  lemma {:induction false} LooksWhen(r: Ranges, F: seq<Key>, T: seq<Key>, i: nat, j: nat, best: Run, m: Run)
    requires InBounds(r, F, T) && IsRun(m, r, F, T) && r.s1 <= i && best.sx <= best.ex && i + (best.ex - best.sx) < r.e1
    requires m == best || (m.sx == i && m.sy < j)
    requires RowLacks(r, F, T, i, r.s2, j, m.ex - m.sx + 1) && j + (m.ex - m.sx) < r.e2
    ensures OverlooksAt(r, F, T, i, j) <==> F[i] == T[j] && i + (m.ex - m.sx) >= r.e1
    ensures RowOverlooks(r, F, T, i, j + 1) <==> RowOverlooks(r, F, T, i, j) || OverlooksAt(r, F, T, i, j)
  {
    var longest := m.ex - m.sx;
    if i + longest >= r.e1 {
      assert Fits(r, F, T, i, m.sy, r.e1 - i);
    } else {
      RowLacksMore(r, F, T, i, r.s2, j, longest + 1, r.e1 - i);
    }
  }

  lemma {:induction false} RowEnd(r: Ranges, F: seq<Key>, T: seq<Key>, i: nat, j: nat, best: Run, m: Run)
    requires InBounds(r, F, T) && IsRun(m, r, F, T) && r.s1 <= i && best.sx <= best.ex && i + (best.ex - best.sx) < r.e1
    requires m == best || m.sx == i
    requires RowLacks(r, F, T, i, r.s2, j, m.ex - m.sx + 1) && j + (m.ex - m.sx) >= r.e2
    ensures RowLacks(r, F, T, i, r.s2, r.e2, m.ex - m.sx + 1)
    ensures RowOverlooks(r, F, T, i, r.e2) <==> RowOverlooks(r, F, T, i, j)
  {
    var longest := m.ex - m.sx;
    assert RowLacks(r, F, T, i, r.s2, r.e2, longest + 1);
    forall j': nat | OverlooksAt(r, F, T, i, j')
      ensures j' < j
    {
      if longest < r.e1 - i {
        RowLacksMore(r, F, T, i, r.s2, r.e2, longest + 1, r.e1 - i);
      }
    }
  }

  lemma {:induction false} RowsStep(r: Ranges, F: seq<Key>, T: seq<Key>, i: nat, best: Run, m: Run, looked: bool)
    requires InBounds(r, F, T) && r.s1 <= i && IsRun(best, r, F, T) && IsRun(m, r, F, T)
    requires i + (best.ex - best.sx) < r.e1 && m.ex - m.sx >= best.ex - best.sx
    requires RowsLack(r, F, T, i, best.ex - best.sx + 1)
    requires RowLacks(r, F, T, i, r.s2, r.e2, m.ex - m.sx + 1)
    requires looked <==> RowOverlooks(r, F, T, i, r.e2)
    ensures RowsLack(r, F, T, i + 1, m.ex - m.sx + 1)
    ensures Overlooks(r, F, T, i + 1) <==> Overlooks(r, F, T, i) || looked
  {
    RowsLackMore(r, F, T, i, best.ex - best.sx + 1, m.ex - m.sx + 1);
    RowsLackMore(r, F, T, i, best.ex - best.sx + 1, r.e1 - i);
  }

  /** Past the row where the search stops, no row is one it gets to. */
  lemma {:induction false} RowsEnd(r: Ranges, F: seq<Key>, T: seq<Key>, i: nat, m: Run)
    requires InBounds(r, F, T) && IsRun(m, r, F, T) && r.s1 <= i <= r.e1
    requires m.sx < i || m.sx == m.ex
    requires i + (m.ex - m.sx) >= r.e1
    ensures Overlooks(r, F, T, r.e1) <==> Overlooks(r, F, T, i)
  {
    if Overlooks(r, F, T, r.e1) {
      var i': nat :| i' < r.e1 && RowOverlooks(r, F, T, i', r.e2) && RowsLack(r, F, T, i', r.e1 - i');
      if i' >= i {
        RunDeniesLack(r, F, T, m, i', r.e1 - i');
      }
    }
  }

  lemma {:induction false} RunDeniesLack(r: Ranges, F: seq<Key>, T: seq<Key>, m: Run, hi: nat, n: nat)
    requires InBounds(r, F, T) && IsRun(m, r, F, T) && m.sx < hi && 0 < n <= m.ex - m.sx
    ensures !RowsLack(r, F, T, hi, n)
  {
    FitsShorter(r, F, T, m.sx, m.sy, n, m.ex - m.sx);
    assert !RowLacks(r, F, T, m.sx, r.s2, r.e2, n);
  }
}
