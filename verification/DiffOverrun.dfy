/** Two small files on which the diff's exhaustive search looks past the old one. */
module DiffOverrun {
  import opened LineHashing
  import opened LineTable
  import opened EditScript
  import opened CommonRun
  import opened ChainSearch
  import opened LineDiff

  const LINES: nat := 128

  /** The new file: y, x, x, and y to the end. */
  function Repeated(x: Key, y: Key): (T: seq<Key>)
    ensures |T| == LINES
  {
    seq(LINES, k => if k == 1 || k == 2 then x else y)
  }

  lemma {:induction false} OneBucket(buckets: seq<nat>, b: nat, lo: nat)
    requires lo <= |buckets| && forall k :: 0 <= k < |buckets| ==> buckets[k] == b
    ensures InBucket(buckets, b, lo) == |buckets| - lo
    decreases |buckets| - lo
  {
    if lo < |buckets| {
      OneBucket(buckets, b, lo + 1);
    }
  }

  /** In one bucket, both copies of x lie deeper than the last cutoff reaches. */
  lemma {:induction false} NoAnchorFound(x: Key, y: Key, r: Ranges)
    requires x != y && Bucket(x.h, LINES) == Bucket(y.h, LINES) && r == Ranges(0, 1, 0, LINES)
    ensures Exhaustive(r, [x], Repeated(x, y))
  {
    var T := Repeated(x, y);
    forall k: nat | Anchor(T, x, r.s2, r.e2, k) ensures DepthOf(T, k) > LAST_CUTOFF + 1 {
      OneBucket(Buckets(T), Bucket(x.h, LINES), k + 1);
    }
  }

  /**
   * One old line x, and a new file of 128 lines in one bucket that has x twice near its
   * start: the chain is cut off at every cutoff, so the search is exhaustive, and it
   * looks for a line after x.
   */
  lemma {:induction false} RepeatedOverruns(x: Key, y: Key)
    requires x != y && Bucket(x.h, LINES) == Bucket(y.h, LINES)
    ensures SearchesMiddle([x], Repeated(x, y))
    ensures Overruns(MiddleOf([x], Repeated(x, y)), [x], Repeated(x, y))
  {
    var F, T, r := [x], Repeated(x, y), Ranges(0, 1, 0, LINES);
    assert CommonSuffix(F, T, 1, LINES) == 0 && CommonPrefix(F, T, 0, 1, LINES) == 0;
    assert MiddleOf(F, T) == r;
    NoAnchorFound(x, y, r);
    assert Fits(r, F, T, 0, 1, 1);
    assert !RowLacks(r, F, T, 0, 0, 2, 1);
    assert OverlooksAt(r, F, T, 0, 2);
    assert RowOverlooks(r, F, T, 0, LINES);
    assert RowsLack(r, F, T, 0, 1);
  }

  // ----- as files

  /** A file of n lines of one byte each. */
  ghost predicate OneByteLines(data: seq<Byte>, n: nat) {
    && |data| == 2 * n
    && (forall k {:trigger data[2 * k]} :: 0 <= k < n ==>
        data[2 * k] != NEWLINE && data[2 * k] != RETURN && data[2 * k] != NUL)
    && (forall k {:trigger data[2 * k + 1]} :: 0 <= k < n ==> data[2 * k + 1] == NEWLINE)
  }

  ghost function Singles(data: seq<Byte>, n: nat, i: nat): (lines: seq<seq<Byte>>)
    requires OneByteLines(data, n) && i <= n
    ensures |lines| == n - i
    decreases n - i
  {
    if i == n then [] else [[data[2 * i]]] + Singles(data, n, i + 1)
  }

  lemma {:induction false} SinglesAt(data: seq<Byte>, n: nat, i: nat, k: nat)
    requires OneByteLines(data, n) && i <= n && k < n - i
    ensures Singles(data, n, i)[k] == [data[2 * (i + k)]]
    decreases k
  {
    if k > 0 {
      SinglesAt(data, n, i + 1, k - 1);
    }
  }

  lemma {:induction false} LinesAreSingles(data: seq<Byte>, n: nat, i: nat)
    requires OneByteLines(data, n) && i <= n
    ensures LinesFrom(data, 2 * i) == Singles(data, n, i)
    decreases n - i
  {
    if i < n {
      LinesAreSingles(data, n, i + 1);
      assert data[2 * i] != NEWLINE && data[2 * i + 1] == NEWLINE;
      OneMoreSingle(data, 2 * i, Singles(data, n, i + 1));
    }
  }

  lemma {:induction false} OneMoreSingle(data: seq<Byte>, at: nat, rest: seq<seq<Byte>>)
    requires at + 1 < |data| && data[at] != NEWLINE && data[at + 1] == NEWLINE && rest == LinesFrom(data, at + 2)
    ensures LinesFrom(data, at) == [[data[at]]] + rest
  {
    assert LineEnd(data, at) == LineEnd(data, at + 1) == at + 1;
    assert data[at..at + 1] == [data[at]];
  }

  /** The lines of such a file, and their keys. */
  lemma {:induction false} FileOfBytes(file: seq<Byte>, n: nat)
    requires OneByteLines(file, n) && !(BOM <= file)
    ensures FileLines(file) == Singles(file, n, 0) && Diffable(file)
  {
    LinesAreSingles(file, n, 0);
    assert NUL !in file by {
      forall i | 0 <= i < |file| ensures file[i] != NUL {
        assert file[i] == file[2 * (i / 2)] || file[i] == file[2 * (i / 2) + 1];
      }
    }
    forall k | 0 <= k < n ensures |FileLines(file)[k]| == 1 {
      SinglesAt(file, n, 0, k);
    }
  }

  function KeyOf(b: Byte): Key {
    Key([b], HashLine([b]))
  }

  lemma {:induction false} TableKey(file: seq<Byte>, n: nat, lines: seq<DLine>, k: nat)
    requires OneByteLines(file, n) && !(BOM <= file) && k < n
    requires Prepared(lines, FileLines(file), HashLine, |FileLines(file)|)
    ensures |lines| == n && Keys(lines)[k] == KeyOf(file[2 * k])
  {
    FileOfBytes(file, n);
    SinglesAt(file, n, 0, k);
    assert file[2 * k] != RETURN;
  }

  const A: Byte := 97
  const B: Byte := 98

  /** "a" */
  const OLD_FILE: seq<Byte> := [A, NEWLINE]

  function NewByte(k: int): Byte {
    if k == 1 || k == 2 then A else B
  }

  /** "b", "a", "a", and "b" 125 times. */
  function NewFile(): (file: seq<Byte>)
    ensures |file| == 2 * LINES
    ensures forall k {:trigger file[2 * k]} :: 0 <= k < LINES ==> file[2 * k] == NewByte(k)
    ensures forall k {:trigger file[2 * k + 1]} :: 0 <= k < LINES ==> file[2 * k + 1] == NEWLINE
  {
    seq(2 * LINES, i => if i % 2 == 1 then NEWLINE else NewByte(i / 2))
  }

  lemma {:induction false} LengthBucket(b: Byte)
    ensures Bucket(KeyOf(b).h, LINES) == 1
  {
    HashKeepsLength([b]);
    LowBits(HashLine([b]));
  }

  lemma {:induction false} LowBits(h: nat)
    requires h % LENGTH_RANGE == 1
    ensures Bucket(h, LINES) == 1
  {
    assert h == 128 * (256 * (h / LENGTH_RANGE)) + 1;
  }

  lemma {:induction false} OldTable(lines: seq<DLine>)
    requires Prepared(lines, FileLines(OLD_FILE), HashLine, |FileLines(OLD_FILE)|)
    ensures Keys(lines) == [KeyOf(A)]
  {
    assert OneByteLines(OLD_FILE, 1) by {
      assert OLD_FILE[0] == A && OLD_FILE[1] == NEWLINE;
    }
    TableKey(OLD_FILE, 1, lines, 0);
  }

  lemma {:induction false} NewTable(lines: seq<DLine>)
    requires Prepared(lines, FileLines(NewFile()), HashLine, |FileLines(NewFile())|)
    ensures Keys(lines) == Repeated(KeyOf(A), KeyOf(B))
  {
    var file := NewFile();
    assert OneByteLines(file, LINES);
    assert file[2 * 0] == B;
    forall k | 0 <= k < LINES ensures |lines| == LINES && Keys(lines)[k] == Repeated(KeyOf(A), KeyOf(B))[k] {
      TableKey(file, LINES, lines, k);
    }
    TableKey(file, LINES, lines, 0);
  }

  lemma {:induction false} BothDiffable()
    ensures Diffable(OLD_FILE) && Diffable(NewFile())
  {
    assert OLD_FILE[0] == A && OLD_FILE[1] == NEWLINE;
    assert OneByteLines(OLD_FILE, 1);
    FileOfBytes(OLD_FILE, 1);
    assert OneByteLines(NewFile(), LINES);
    assert NewFile()[2 * 0] == B;
    FileOfBytes(NewFile(), LINES);
  }

  /** Cut into lines and diffed, these two files make the search look past the old one. */
  method DiffOfSmallFiles() returns (overran: bool)
    ensures overran
  {
    BothDiffable();
    var from, _ := BreakIntoLines(OLD_FILE, HashLine);
    var to, _ := BreakIntoLines(NewFile(), HashLine);
    OldTable(from[..]);
    NewTable(to[..]);
    LengthBucket(A);
    LengthBucket(B);
    RepeatedOverruns(KeyOf(A), KeyOf(B));
    var _, o, _ := DiffAll(from[..], to[..]);
    overran := o;
  }
}
