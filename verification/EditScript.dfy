/** The edit scripts of the line diff: flat lists of (copy, delete, insert) line
    counts, read from the end, and what such a script means as a transformation of
    one list of lines into another. */
module EditScript {

  /** How many lines of the old file the script walks over. */
  function Consumed(edit: seq<nat>): nat
  {
    if |edit| < 3 then 0
    else var n := |edit|; Consumed(edit[..n - 3]) + edit[n - 3] + edit[n - 2]
  }

  /** How many lines of the new file the script yields. */
  function Produced(edit: seq<nat>): nat
  {
    if |edit| < 3 then 0
    else var n := |edit|; Produced(edit[..n - 3]) + edit[n - 3] + edit[n - 1]
  }

  /** How many of the new file's lines the script has to be given. */
  function InsertCount(edit: seq<nat>): nat
  {
    if |edit| < 3 then 0
    else var n := |edit|; InsertCount(edit[..n - 3]) + edit[n - 1]
  }

  /** from[p..p + n] and to[q..q + n] are the same lines. */
  ghost predicate SameRun<T>(from: seq<T>, to: seq<T>, p: nat, q: nat, n: nat) {
    p + n <= |from| && q + n <= |to| &&
    (n == 0 || (SameRun(from, to, p, q, n - 1) && from[p + n - 1] == to[q + n - 1]))
  }

  lemma {:induction false} RunAt<T>(from: seq<T>, to: seq<T>, p: nat, q: nat, n: nat, k: nat)
    requires SameRun(from, to, p, q, n) && k < n
    ensures from[p + k] == to[q + k]
  {
    if k < n - 1 {
      RunAt(from, to, p, q, n - 1, k);
    }
  }

  lemma {:induction false} JoinRuns<T>(from: seq<T>, to: seq<T>, p: nat, q: nat, m: nat, n: nat)
    requires SameRun(from, to, p, q, m) && SameRun(from, to, p + m, q + m, n)
    ensures SameRun(from, to, p, q, m + n)
  {
    if n > 0 {
      JoinRuns(from, to, p, q, m, n - 1);
    }
  }

  lemma {:induction false} RunPrefix<T>(from: seq<T>, to: seq<T>, p: nat, q: nat, n: nat, m: nat)
    requires SameRun(from, to, p, q, n) && m <= n
    ensures SameRun(from, to, p, q, m)
  {
    if m < n {
      RunPrefix(from, to, p, q, n - 1, m);
    }
  }

  lemma {:induction false} SlicesOfRun<T>(from: seq<T>, to: seq<T>, p: nat, q: nat, n: nat)
    requires SameRun(from, to, p, q, n)
    ensures from[p..p + n] == to[q..q + n]
  {
    if n > 0 {
      SlicesOfRun(from, to, p, q, n - 1);
      SliceLast(from, p, n);
      SliceLast(to, q, n);
    }
  }

  lemma {:induction false} SliceLast<T>(s: seq<T>, p: nat, n: nat)
    requires 0 < n && p + n <= |s|
    ensures s[p..p + n] == s[p..p + n - 1] + [s[p + n - 1]]
  {
  }

  /** Every line the script copies is the same line on both sides, and the script
      stays inside both files. */
  ghost predicate Aligned<T>(edit: seq<nat>, from: seq<T>, to: seq<T>)
  {
    Consumed(edit) <= |from| && Produced(edit) <= |to| &&
    (|edit| < 3 ||
     var n := |edit|;
     var rest := edit[..n - 3];
     Aligned(rest, from, to) && SameRun(from, to, Consumed(rest), Produced(rest), edit[n - 3]))
  }

  /** The script so far is aligned and the next triple keeps it so. */
  ghost predicate CanAppend<T>(edit: seq<nat>, c: nat, d: nat, i: nat, from: seq<T>, to: seq<T>)
  {
    && Aligned(edit, from, to)
    && SameRun(from, to, Consumed(edit), Produced(edit), c)
    && Consumed(edit) + c + d <= |from|
    && Produced(edit) + c + i <= |to|
  }

  /** The script inserts line `line` of the new file. */
  predicate Inserts(edit: seq<nat>, line: nat)
  {
    |edit| >= 3 &&
    var n := |edit|;
    var rest := edit[..n - 3];
    Inserts(rest, line) ||
    Produced(rest) + edit[n - 3] <= line < Produced(rest) + edit[n - 3] + edit[n - 1]
  }

  /** The script copies line p of the old file as line q of the new one. */
  predicate Copies(edit: seq<nat>, p: nat, q: nat)
  {
    |edit| >= 3 &&
    var n := |edit|;
    var rest := edit[..n - 3];
    Copies(rest, p, q) || Pairs(Consumed(rest), Produced(rest), edit[n - 3], p, q)
  }

  /** Lines p and q are the same way into the c lines from (x, y) on. */
  predicate Pairs(x: nat, y: nat, c: nat, p: nat, q: nat) {
    x <= p < x + c && p - x == q - y
  }

  /** Runs the script as a patch: copied lines come from the old file, the others
      from the list of lines that travels with the script. */
  function Patch<T>(edit: seq<nat>, from: seq<T>, inserted: seq<T>): seq<T>
    requires Consumed(edit) <= |from| && InsertCount(edit) <= |inserted|
  {
    if |edit| < 3 then []
    else
      var n := |edit|;
      var rest := edit[..n - 3];
      var p, r := Consumed(rest), InsertCount(rest);
      Patch(rest, from, inserted) + from[p..p + edit[n - 3]] + inserted[r..r + edit[n - 1]]
  }

  /** The lines that have to travel with the script: those of the new file that it
      inserts, in order. */
  function Inserted<T>(edit: seq<nat>, to: seq<T>): (ins: seq<T>)
    requires Produced(edit) <= |to|
    ensures |ins| == InsertCount(edit)
  {
    if |edit| < 3 then []
    else
      var n := |edit|;
      var rest := edit[..n - 3];
      var q := Produced(rest) + edit[n - 3];
      Inserted(rest, to) + to[q..q + edit[n - 1]]
  }

  /** A longer list of travelling lines patches alike. */
  lemma {:induction false} PatchIgnoresExtra<T>(edit: seq<nat>, from: seq<T>, ins: seq<T>, more: seq<T>)
    requires Consumed(edit) <= |from| && InsertCount(edit) <= |ins|
    ensures Patch(edit, from, ins + more) == Patch(edit, from, ins)
  {
    if |edit| >= 3 {
      var n := |edit|;
      var rest := edit[..n - 3];
      PatchIgnoresExtra(rest, from, ins, more);
      var r := InsertCount(rest);
      SliceOfFirst(ins, more, r, r + edit[n - 1]);
    }
  }

  lemma {:induction false} SliceOfFirst<T>(a: seq<T>, b: seq<T>, lo: nat, hi: nat)
    requires lo <= hi <= |a|
    ensures (a + b)[lo..hi] == a[lo..hi]
  {
  }

  lemma {:induction false} TailSlice<T>(a: seq<T>, b: seq<T>)
    ensures (a + b)[|a|..|a| + |b|] == b
  {
  }

  lemma {:induction false} GlueSlices<T>(s: seq<T>, q: nat, c: nat, i: nat, x: seq<T>, y: seq<T>, z: seq<T>)
    requires q + c + i <= |s|
    requires x == s[..q] && y == s[q..q + c] && z == s[q + c..q + c + i]
    ensures x + y + z == s[..q + c + i]
  {
  }

  /** The last triple's part of the patch, after the part before it. */
  lemma {:induction false} PatchLast<T>(
    before: seq<T>, p: nat, q: nat, c: nat, i: nat, from: seq<T>, to: seq<T>, ins: seq<T>, last: seq<T>)
    requires p + c <= |from| && q + c + i <= |to| && SameRun(from, to, p, q, c)
    requires before == to[..q] && last == to[q + c..q + c + i]
    ensures before + from[p..p + c] + (ins + last)[|ins|..|ins| + i] == to[..q + c + i]
  {
    TailSlice(ins, last);
    SlicesOfRun(from, to, p, q, c);
    GlueSlices(to, q, c, i, before, from[p..p + c], last);
  }

  /** An aligned script patches the old file into the part of the new file it
      yields. */
  lemma {:induction false} PatchRebuilds<T>(edit: seq<nat>, from: seq<T>, to: seq<T>)
    requires Aligned(edit, from, to)
    ensures Patch(edit, from, Inserted(edit, to)) == to[..Produced(edit)]
  {
    if |edit| >= 3 {
      var rest := edit[..|edit| - 3];
      var q := Produced(rest) + edit[|edit| - 3];
      PatchRebuilds(rest, from, to);
      var ins, last := Inserted(rest, to), to[q..q + edit[|edit| - 1]];
      PatchIgnoresExtra(rest, from, ins, last);
      PatchLast(Patch(rest, from, ins + last), Consumed(rest), Produced(rest), edit[|edit| - 3], edit[|edit| - 1],
        from, to, ins, last);
    }
  }

  /** A line of the new file the script reaches and does not insert is one it
      copies: the old file has it, at a position the script names. */
  lemma {:induction false} CopiedFrom<T>(edit: seq<nat>, from: seq<T>, to: seq<T>, line: nat) returns (p: nat)
    requires Aligned(edit, from, to)
    requires line < Produced(edit) && !Inserts(edit, line)
    ensures p < |from| && from[p] == to[line] && Copies(edit, p, line)
  {
    var n := |edit|;
    var rest := edit[..n - 3];
    if line < Produced(rest) {
      p := CopiedFrom(rest, from, to, line);
    } else {
      p := Consumed(rest) + (line - Produced(rest));
      RunAt(from, to, Consumed(rest), Produced(rest), edit[n - 3], line - Produced(rest));
    }
  }

  /** A script only inserts lines it reaches. */
  lemma {:induction false} InsertsBelowProduced(edit: seq<nat>, line: nat)
    requires Inserts(edit, line)
    ensures line < Produced(edit)
  {
    var n := |edit|;
    var rest := edit[..n - 3];
    if Inserts(rest, line) {
      InsertsBelowProduced(rest, line);
    }
  }

  /** A line copied is reached, and not inserted. */
  lemma {:induction false} CopiedNotInserted(edit: seq<nat>, p: nat, q: nat)
    requires Copies(edit, p, q)
    ensures q < Produced(edit) && p < Consumed(edit) && !Inserts(edit, q)
  {
    var rest := edit[..|edit| - 3];
    if Copies(rest, p, q) {
      CopiedNotInserted(rest, p, q);
    } else if Inserts(rest, q) {
      InsertsBelowProduced(rest, q);
    }
  }

  /** A new line is copied from one old line at most, and an old line to one new line. */
  lemma {:induction false} CopiedOnce(edit: seq<nat>, p: nat, q: nat, p': nat, q': nat)
    requires Copies(edit, p, q) && Copies(edit, p', q')
    ensures p < p' <==> q < q'
  {
    var rest := edit[..|edit| - 3];
    if Copies(rest, p, q) {
      CopiedNotInserted(rest, p, q);
    }
    if Copies(rest, p', q') {
      CopiedNotInserted(rest, p', q');
    }
    if Copies(rest, p, q) && Copies(rest, p', q') {
      CopiedOnce(rest, p, q, p', q');
    }
  }

  /** Script f consumes, yields, copies and inserts what the script edit does and then the
      triple (c, d, i). */
  ghost predicate MeansAppend(edit: seq<nat>, c: nat, d: nat, i: nat, f: seq<nat>)
  {
    && |f| % 3 == |edit| % 3
    && Consumed(f) == Consumed(edit) + c + d
    && Produced(f) == Produced(edit) + c + i
    && (forall line: nat ::
          Inserts(f, line) <==> Inserts(edit, line) || Produced(edit) + c <= line < Produced(edit) + c + i)
    && forall p: nat, q: nat ::
         Copies(f, p, q) <==> Copies(edit, p, q) || Pairs(Consumed(edit), Produced(edit), c, p, q)
  }

  /** One more triple at the end. */
  lemma {:induction false} AppendUnfolds<T>(edit: seq<nat>, c: nat, d: nat, i: nat, from: seq<T>, to: seq<T>)
    ensures MeansAppend(edit, c, d, i, edit + [c, d, i])
    ensures CanAppend(edit, c, d, i, from, to) ==> Aligned(edit + [c, d, i], from, to)
  {
    var e := edit + [c, d, i];
    assert e[..|e| - 3] == edit;
  }

  /** The script with the triple folded into its last one. */
  function Folded(edit: seq<nat>, c: nat, d: nat, i: nat): (f: seq<nat>)
    requires |edit| >= 3
    ensures |f| == |edit| && f[..|edit| - 3] == edit[..|edit| - 3]
  {
    var n := |edit|;
    edit[n - 3 := edit[n - 3] + c][n - 2 := edit[n - 2] + d][n - 1 := edit[n - 1] + i]
  }

  /** One of the three folds that appendTriple makes. */
  predicate Folds(edit: seq<nat>, c: nat, d: nat)
    requires |edit| >= 3
  {
    var n := |edit|;
    (edit[n - 1] == 0 && edit[n - 2] == 0) || (edit[n - 1] == 0 && c == 0) || (c == 0 && d == 0)
  }

  /** Folding a triple into the last one means what appending it means. */
  lemma {:induction false} FoldMeansAppend(edit: seq<nat>, c: nat, d: nat, i: nat)
    requires |edit| >= 3 && Folds(edit, c, d)
    ensures MeansAppend(edit, c, d, i, Folded(edit, c, d, i))
  {
  }

  lemma {:induction false} FoldAligned<T>(edit: seq<nat>, c: nat, d: nat, i: nat, from: seq<T>, to: seq<T>)
    requires |edit| >= 3 && Folds(edit, c, d)
    requires CanAppend(edit, c, d, i, from, to)
    ensures Aligned(Folded(edit, c, d, i), from, to)
  {
    var n := |edit|;
    var rest := edit[..n - 3];
    if c > 0 {
      JoinRuns(from, to, Consumed(rest), Produced(rest), edit[n - 3], c);
    }
  }

  /** What appendTriple leaves: the triple folded in where it can be, else appended. */
  predicate IsAppended(edit: seq<nat>, c: nat, d: nat, i: nat, f: seq<nat>) {
    f == if |edit| >= 3 && Folds(edit, c, d) then Folded(edit, c, d, i) else edit + [c, d, i]
  }

  lemma {:induction false} AppendedMeans<T>(
    edit: seq<nat>, c: nat, d: nat, i: nat, f: seq<nat>, from: seq<T>, to: seq<T>)
    requires IsAppended(edit, c, d, i, f)
    ensures MeansAppend(edit, c, d, i, f)
    ensures CanAppend(edit, c, d, i, from, to) ==> Aligned(f, from, to)
  {
    if |edit| >= 3 && Folds(edit, c, d) {
      FoldMeansAppend(edit, c, d, i);
      if CanAppend(edit, c, d, i, from, to) {
        FoldAligned(edit, c, d, i, from, to);
      }
    } else {
      AppendUnfolds(edit, c, d, i, from, to);
    }
  }
}
