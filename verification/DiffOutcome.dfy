/** What a diff makes of its files: which runs it keeps, told by the lines its script copies
    and inserts. */
module DiffOutcome {
  import opened LineHashing
  import opened LineTable
  import opened LineIndent
  import opened EditScript
  import opened CommonRun
  import opened ChainSearch

  // ----- the run a search settles on

  /** The run cannot be extended inside its ranges. */
  ghost predicate Whole(m: Run, r: Ranges, F: seq<Key>, T: seq<Key>)
    requires InBounds(r, F, T) && IsRun(m, r, F, T)
  {
    && (m.sx == r.s1 || m.sy == r.s2 || F[m.sx - 1] != T[m.sy - 1])
    && (m.ex == r.e1 || m.ey == r.e2 || F[m.ex] != T[m.ey])
  }

  /**
   * A run that a search of the ranges may end with: whole, and not empty if they have an
   * anchor; without one, longest on small ranges, and empty on others.
   */
  ghost predicate Found(m: Run, r: Ranges, F: seq<Key>, T: seq<Key>) {
    && InBounds(r, F, T) && IsRun(m, r, F, T)
    && (m.sx < m.ex ==> Whole(m, r, F, T))
    && (Exhaustive(r, F, T) ==> Longest(m, r, F, T))
    && (Scorable(r) && Anchored(r, F, T) ==> m.sx < m.ex)
    && (Scorable(r) && !Anchored(r, F, T) && !Small(r) ==> m.sx == m.ex)
  }

  lemma {:induction false} LongestIsWhole(m: Run, r: Ranges, F: seq<Key>, T: seq<Key>)
    requires InBounds(r, F, T) && Longest(m, r, F, T)
    ensures Whole(m, r, F, T)
  {
    var n := m.ex - m.sx;
    if m.sx > r.s1 && m.sy > r.s2 && F[m.sx - 1] == T[m.sy - 1] {
      assert SameRun(F, T, m.sx - 1, m.sy - 1, 1);
      JoinRuns(F, T, m.sx - 1, m.sy - 1, 1, n);
      assert Fits(r, F, T, m.sx - 1, m.sy - 1, n + 1);
    }
    if m.ex < r.e1 && m.ey < r.e2 && F[m.ex] == T[m.ey] {
      assert Fits(r, F, T, m.sx, m.sy, n + 1);
    }
  }

  /** The run is worth splitting the ranges at. */
  ghost predicate Worth(m: Run, r: Ranges, F: seq<Key>)
    requires r.s1 <= m.sx <= m.ex <= r.e1 <= |F|
  {
    m.ex > m.sx + 5 || (m.ex > m.sx && RealMatch(F, r.s1, m.sx, m.ex, r.e1))
  }

  // ----- what is made of a pair of ranges

  ghost predicate AllInserted(edit: seq<nat>, lo: nat, hi: nat) {
    forall q :: lo <= q < hi ==> Inserts(edit, q)
  }

  ghost predicate AllCopied(edit: seq<nat>, p: nat, q: nat, n: nat) {
    forall i: nat, j: nat :: Pairs(p, q, n, i, j) ==> Copies(edit, i, j)
  }

  function Left(r: Ranges, m: Run): Ranges {
    Ranges(r.s1, m.sx, r.s2, m.sy)
  }

  function Right(r: Ranges, m: Run): Ranges {
    Ranges(m.ex, r.e1, m.ey, r.e2)
  }

  /**
   * The script diffs the ranges: around a run that is worth it, which is copied, each
   * side in the same way; else every new line is inserted.
   */
  ghost predicate Diffs(edit: seq<nat>, r: Ranges, F: seq<Key>, T: seq<Key>)
    requires InBounds(r, F, T)
    decreases r.e1 - r.s1, 1
  {
    if r.s1 == r.e1 || r.s2 == r.e2 then AllInserted(edit, r.s2, r.e2)
    else exists m :: Found(m, r, F, T) && SplitsAt(edit, r, m, F, T)
  }

  ghost predicate SplitsAt(edit: seq<nat>, r: Ranges, m: Run, F: seq<Key>, T: seq<Key>)
    requires InBounds(r, F, T) && IsRun(m, r, F, T)
    decreases r.e1 - r.s1, 0
  {
    if Worth(m, r, F) then
      && AllCopied(edit, m.sx, m.sy, m.ex - m.sx)
      && Diffs(edit, Left(r, m), F, T) && Diffs(edit, Right(r, m), F, T)
    else AllInserted(edit, r.s2, r.e2)
  }

  /** e copies and inserts what edit does, and more. */
  ghost predicate Extends(edit: seq<nat>, e: seq<nat>) {
    && (forall q :: Inserts(edit, q) ==> Inserts(e, q))
    && (forall p, q :: Copies(edit, p, q) ==> Copies(e, p, q))
  }

  lemma {:induction false} AppendExtends(edit: seq<nat>, c: nat, d: nat, i: nat, e: seq<nat>)
    requires MeansAppend(edit, c, d, i, e)
    ensures Extends(edit, e)
    ensures AllCopied(e, Consumed(edit), Produced(edit), c)
    ensures AllInserted(e, Produced(edit) + c, Produced(edit) + c + i)
  {
  }

  lemma {:induction false} CopiedExtended(edit: seq<nat>, e: seq<nat>, p: nat, q: nat, n: nat)
    requires Extends(edit, e) && AllCopied(edit, p, q, n)
    ensures AllCopied(e, p, q, n)
  {
  }

  lemma {:induction false} DiffsExtended(edit: seq<nat>, e: seq<nat>, r: Ranges, F: seq<Key>, T: seq<Key>)
    requires InBounds(r, F, T) && Extends(edit, e) && Diffs(edit, r, F, T)
    ensures Diffs(e, r, F, T)
    decreases r.e1 - r.s1, 1
  {
    if r.s1 < r.e1 && r.s2 < r.e2 {
      var m :| Found(m, r, F, T) && SplitsAt(edit, r, m, F, T);
      SplitExtended(edit, e, r, m, F, T);
    }
  }

  lemma {:induction false} SplitExtended(
    edit: seq<nat>, e: seq<nat>, r: Ranges, m: Run, F: seq<Key>, T: seq<Key>)
    requires InBounds(r, F, T) && r.s1 < r.e1 && IsRun(m, r, F, T)
    requires Extends(edit, e) && SplitsAt(edit, r, m, F, T)
    ensures SplitsAt(e, r, m, F, T)
    decreases r.e1 - r.s1, 0
  {
    if Worth(m, r, F) {
      DiffsExtended(edit, e, Left(r, m), F, T);
      DiffsExtended(edit, e, Right(r, m), F, T);
    }
  }

  /** The script diffs each of the ranges. */
  ghost predicate DiffsEach(edit: seq<nat>, tried: seq<Ranges>, F: seq<Key>, T: seq<Key>) {
    forall r :: r in tried ==> InBounds(r, F, T) && Diffs(edit, r, F, T)
  }

  lemma {:induction false} EachExtended(edit: seq<nat>, e: seq<nat>, tried: seq<Ranges>, F: seq<Key>, T: seq<Key>)
    requires Extends(edit, e) && DiffsEach(edit, tried, F, T)
    ensures DiffsEach(e, tried, F, T)
  {
    forall r | r in tried ensures InBounds(r, F, T) && Diffs(e, r, F, T) {
      DiffsExtended(edit, e, r, F, T);
    }
  }

  // ----- runs that are kept

  /** More than five lines, or no artifact of indentation. */
  ghost predicate Lasting(m: Run, r: Ranges, F: seq<Key>)
    requires r.s1 <= m.sx <= m.ex <= r.e1 <= |F|
  {
    m.sx + 5 < m.ex || (m.sx < m.ex && RealMatch(F, r.s1, m.sx, m.ex, r.e1))
  }

  /**
   * The search of the ranges ends with a run to keep: it is exhaustive and every longest
   * run is one, or it has an anchor and every run is one.
   */
  ghost predicate MustSplit(r: Ranges, F: seq<Key>, T: seq<Key>)
    requires InBounds(r, F, T)
  {
    && r.s1 < r.e1 && r.s2 < r.e2
    && if Exhaustive(r, F, T) then forall m :: Longest(m, r, F, T) ==> Lasting(m, r, F)
       else Scorable(r) && Anchored(r, F, T)
            && forall m :: IsRun(m, r, F, T) && m.sx < m.ex ==> Lasting(m, r, F)
  }

  /** Some common run of the ranges is copied whole, so none of its lines is inserted. */
  ghost predicate KeepsRun(edit: seq<nat>, r: Ranges, F: seq<Key>, T: seq<Key>) {
    exists m ::
      && IsRun(m, r, F, T) && m.sx < m.ex && AllCopied(edit, m.sx, m.sy, m.ex - m.sx)
      && forall q :: m.sy <= q < m.ey ==> !Inserts(edit, q)
  }

  lemma {:induction false} AllCopiedKept(edit: seq<nat>, p: nat, q: nat, n: nat)
    requires AllCopied(edit, p, q, n)
    ensures forall j :: q <= j < q + n ==> !Inserts(edit, j)
  {
    forall j | q <= j < q + n ensures !Inserts(edit, j) {
      assert Pairs(p, q, n, p + (j - q), j);
      CopiedNotInserted(edit, p + (j - q), j);
    }
  }

  lemma {:induction false} RunKept(edit: seq<nat>, r: Ranges, F: seq<Key>, T: seq<Key>) returns (m: Run)
    requires InBounds(r, F, T) && Diffs(edit, r, F, T) && MustSplit(r, F, T)
    ensures Found(m, r, F, T) && m.sx < m.ex && AllCopied(edit, m.sx, m.sy, m.ex - m.sx)
    ensures forall q :: m.sy <= q < m.ey ==> !Inserts(edit, q)
    ensures KeepsRun(edit, r, F, T)
  {
    m :| Found(m, r, F, T) && SplitsAt(edit, r, m, F, T);
    AllCopiedKept(edit, m.sx, m.sy, m.ex - m.sx);
  }

  /** Every common run of the ranges is part of this one. */
  ghost predicate OnlyRun(w: Run, r: Ranges, F: seq<Key>, T: seq<Key>) {
    && InBounds(r, F, T) && IsRun(w, r, F, T) && w.sx < w.ex
    && forall m :: IsRun(m, r, F, T) && m.sx < m.ex ==> w.sx <= m.sx && m.ex <= w.ex && m.sx - m.sy == w.sx - w.sy
  }

  lemma {:induction false} OnlyRunFound(w: Run, m: Run, r: Ranges, F: seq<Key>, T: seq<Key>)
    requires OnlyRun(w, r, F, T) && Found(m, r, F, T) && m.sx < m.ex
    ensures m == w
  {
    if m.sx > w.sx {
      RunAt(F, T, w.sx, w.sy, w.ex - w.sx, m.sx - 1 - w.sx);
    }
    if m.ex < w.ex {
      RunAt(F, T, w.sx, w.sy, w.ex - w.sx, m.ex - w.sx);
    }
  }

  /** Where the search must split and there is one common run only, all of it is copied. */
  lemma {:induction false} OnlyRunKept(edit: seq<nat>, w: Run, r: Ranges, F: seq<Key>, T: seq<Key>)
    requires InBounds(r, F, T) && Diffs(edit, r, F, T) && MustSplit(r, F, T) && OnlyRun(w, r, F, T)
    ensures AllCopied(edit, w.sx, w.sy, w.ex - w.sx)
    ensures forall q :: w.sy <= q < w.ey ==> !Inserts(edit, q)
  {
    var m := RunKept(edit, r, F, T);
    OnlyRunFound(w, m, r, F, T);
  }

  /** Ranges with no line in common are replaced whole. */
  lemma {:induction false} NothingKept(edit: seq<nat>, r: Ranges, F: seq<Key>, T: seq<Key>)
    requires InBounds(r, F, T) && Diffs(edit, r, F, T)
    requires forall m :: IsRun(m, r, F, T) ==> m.sx == m.ex
    ensures AllInserted(edit, r.s2, r.e2)
  {
  }
}
