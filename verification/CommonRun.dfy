/** Common runs of two lists of lines, as values: what the searches of the diff
    look for, and the facts about them that the searches rely on. */
module CommonRun {
  import opened EditScript

  /** A candidate run: from[sx..ex] and to[sy..ey]. */
  datatype Run = Run(sx: nat, ex: nat, sy: nat, ey: nat)

  /** A pair of ranges, from[s1..e1] and to[s2..e2]. */
  datatype Ranges = Ranges(s1: nat, e1: nat, s2: nat, e2: nat)

  ghost predicate InBounds<T>(r: Ranges, from: seq<T>, to: seq<T>) {
    r.s1 <= r.e1 <= |from| && r.s2 <= r.e2 <= |to|
  }

  /** m is a common run inside the ranges, possibly empty. */
  ghost predicate IsRun<T>(m: Run, r: Ranges, from: seq<T>, to: seq<T>) {
    && r.s1 <= m.sx <= m.ex <= r.e1 && r.s2 <= m.sy <= m.ey <= r.e2
    && m.ex - m.sx == m.ey - m.sy
    && SameRun(from, to, m.sx, m.sy, m.ex - m.sx)
  }

  /** n lines from (i, j) on are common and inside the ranges. */
  ghost predicate Fits<T>(r: Ranges, from: seq<T>, to: seq<T>, i: nat, j: nat, n: nat) {
    i + n <= r.e1 && j + n <= r.e2 && SameRun(from, to, i, j, n)
  }

  lemma {:induction false} FitsShorter<T>(r: Ranges, from: seq<T>, to: seq<T>, i: nat, j: nat, m: nat, n: nat)
    requires Fits(r, from, to, i, j, n) && m <= n
    ensures Fits(r, from, to, i, j, m)
  {
    RunPrefix(from, to, i, j, n, m);
  }

  /** No run of n lines starts in row i, at columns lo..hi. */
  ghost predicate RowLacks<T>(r: Ranges, from: seq<T>, to: seq<T>, i: nat, lo: nat, hi: nat, n: nat) {
    forall j :: lo <= j < hi ==> !Fits(r, from, to, i, j, n)
  }

  lemma {:induction false} RowLacksMore<T>(
    r: Ranges, from: seq<T>, to: seq<T>, i: nat, lo: nat, hi: nat, n: nat, n': nat)
    requires RowLacks(r, from, to, i, lo, hi, n) && n <= n'
    ensures RowLacks(r, from, to, i, lo, hi, n')
  {
    forall j | lo <= j < hi ensures !Fits(r, from, to, i, j, n') {
      if Fits(r, from, to, i, j, n') {
        FitsShorter(r, from, to, i, j, n, n');
      }
    }
  }

  /** No run of n lines starts in a row before hi. */
  ghost predicate RowsLack<T>(r: Ranges, from: seq<T>, to: seq<T>, hi: nat, n: nat) {
    forall i :: r.s1 <= i < hi ==> RowLacks(r, from, to, i, r.s2, r.e2, n)
  }

  lemma {:induction false} RowsLackMore<T>(r: Ranges, from: seq<T>, to: seq<T>, hi: nat, n: nat, n': nat)
    requires RowsLack(r, from, to, hi, n) && n <= n'
    ensures RowsLack(r, from, to, hi, n')
  {
    forall i | r.s1 <= i < hi ensures RowLacks(r, from, to, i, r.s2, r.e2, n') {
      RowLacksMore(r, from, to, i, r.s2, r.e2, n, n');
    }
  }

  /** m is as long as any common run inside the ranges. */
  ghost predicate Longest<T>(m: Run, r: Ranges, from: seq<T>, to: seq<T>) {
    && IsRun(m, r, from, to)
    && forall i: nat, j: nat, n: nat ::
         r.s1 <= i && r.s2 <= j && Fits(r, from, to, i, j, n) ==> n <= m.ex - m.sx
  }

  lemma {:induction false} LackingLongerIsLongest<T>(m: Run, r: Ranges, from: seq<T>, to: seq<T>, hi: nat)
    requires IsRun(m, r, from, to) && InBounds(r, from, to)
    requires RowsLack(r, from, to, hi, m.ex - m.sx + 1) && hi + (m.ex - m.sx) >= r.e1
    ensures Longest(m, r, from, to)
  {
    var longer := m.ex - m.sx + 1;
    forall i: nat, j: nat, n: nat | r.s1 <= i && r.s2 <= j && Fits(r, from, to, i, j, n)
      ensures n <= m.ex - m.sx
    {
      if n >= longer {
        assert i < hi ==> RowLacks(r, from, to, i, r.s2, r.e2, longer);
        FitsShorter(r, from, to, i, j, longer, n);
      }
    }
  }

  // ----- where the exhaustive search looks one line past its range

  /** In row i, a run reaches the end of the from range, from some column before hi. */
  ghost predicate ReachesEnd<T>(r: Ranges, from: seq<T>, to: seq<T>, i: nat, hi: nat) {
    r.s1 <= i < r.e1 && !RowLacks(r, from, to, i, r.s2, hi, r.e1 - i)
  }

  /** Column j' equals line i again after such a run, with room for one as long: the
      search then reads from[e1] to see whether the run goes on. */
  ghost predicate OverlooksAt<T>(r: Ranges, from: seq<T>, to: seq<T>, i: nat, j': nat)
    requires InBounds(r, from, to)
  {
    ReachesEnd(r, from, to, i, j') && j' + (r.e1 - i) < r.e2 && from[i] == to[j']
  }

  ghost predicate RowOverlooks<T>(r: Ranges, from: seq<T>, to: seq<T>, i: nat, hi: nat)
    requires InBounds(r, from, to)
  {
    exists j': nat :: j' < hi && OverlooksAt(r, from, to, i, j')
  }

  /** Some row overlooks, and the search gets to it: no earlier row has a run that
      ends the search before. */
  ghost predicate Overlooks<T>(r: Ranges, from: seq<T>, to: seq<T>, hi: nat)
    requires InBounds(r, from, to)
  {
    exists i: nat :: i < hi && RowOverlooks(r, from, to, i, r.e2) && RowsLack(r, from, to, i, r.e1 - i)
  }
}
