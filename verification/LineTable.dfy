/** A file cut into lines and prepared for the diff: each line hashed, and the
    lines of one hash bucket threaded into a chain through the table itself. The
    hash is a parameter, so what is proved here holds whatever it is. */
module LineTable {
  import opened LineHashing

  const NUL: Byte := 0
  const NEWLINE: Byte := 10
  const RETURN: Byte := 13
  const BOM: seq<Byte> := [0xEF, 0xBB, 0xBF]

  /** What the diff compares two lines by: the line without its newline or a
      trailing carriage return, and its hash. */
  datatype Key = Key(text: seq<Byte>, h: nat)

  /** A prepared line. iNext is 1 + the next line of this line's chain and iHash is
      1 + the first line of the chain of the bucket with this line's number; 0 ends
      a chain. */
  datatype DLine = DLine(key: Key, iNext: nat, iHash: nat)

  const BLANK := DLine(Key([], 0), 0, 0)

  type Hash = seq<Byte> -> nat

  function Keys(lines: seq<DLine>): (keys: seq<Key>)
    ensures |keys| == |lines|
    ensures forall k {:trigger keys[k]} :: 0 <= k < |lines| ==> keys[k] == lines[k].key
  {
    seq(|lines|, k requires 0 <= k < |lines| => lines[k].key)
  }

  // ----- lines of a file

  function LineEnd(data: seq<Byte>, start: nat): (end: nat)
    requires start <= |data|
    ensures start <= end <= |data|
    ensures end < |data| ==> data[end] == NEWLINE
    decreases |data| - start
  {
    if start < |data| && data[start] != NEWLINE then LineEnd(data, start + 1) else start
  }

  /** The lines from position start on, without their newlines. A final newline
      ends the last line rather than starting an empty one. */
  function LinesFrom(data: seq<Byte>, start: nat): seq<seq<Byte>>
    requires start <= |data|
    decreases |data| - start
  {
    if start == |data| then []
    else
      var end := LineEnd(data, start);
      [data[start..end]] + (if end < |data| then LinesFrom(data, end + 1) else [])
  }

  /** The lines after the one that starts at start. */
  function LaterLines(data: seq<Byte>, start: nat): seq<seq<Byte>>
    requires start <= |data|
  {
    var end := LineEnd(data, start);
    if end < |data| then LinesFrom(data, end + 1) else []
  }

  lemma {:induction false} FirstLine(data: seq<Byte>, start: nat)
    requires start < |data|
    ensures LinesFrom(data, start) == [data[start..LineEnd(data, start)]] + LaterLines(data, start)
    ensures |LinesFrom(data, start)| == 1 + |LaterLines(data, start)|
  {
  }

  function TrimBom(data: seq<Byte>): seq<Byte> {
    if BOM <= data then data[|BOM|..] else data
  }

  function StripReturn(line: seq<Byte>): seq<Byte> {
    if line != [] && line[|line| - 1] == RETURN then line[..|line| - 1] else line
  }

  /** The lines of a file as the diff sees them. */
  function FileLines(data: seq<Byte>): seq<seq<Byte>> {
    LinesFrom(TrimBom(data), 0)
  }

  /** Whether the diff takes the file: no NUL byte, no line over the length bound. */
  predicate Diffable(data: seq<Byte>) {
    NUL !in TrimBom(data) && forall k :: 0 <= k < |FileLines(data)| ==> |FileLines(data)[k]| <= LENGTH_MASK
  }

  function Unlines(lines: seq<seq<Byte>>): seq<Byte> {
    if lines == [] then [] else lines[0] + [NEWLINE] + Unlines(lines[1..])
  }

  /** A last line that runs to the end of the file lacks its newline. */
  lemma {:induction false} LastLineOpen(data: seq<Byte>, start: nat)
    requires start < |data| && LineEnd(data, start) == |data|
    ensures data[|data| - 1] != NEWLINE
    decreases |data| - start
  {
    if start + 1 < |data| {
      LastLineOpen(data, start + 1);
    }
  }

  lemma {:induction false} UnlinesCons(line: seq<Byte>, rest: seq<seq<Byte>>)
    ensures Unlines([line] + rest) == line + [NEWLINE] + Unlines(rest)
  {
    assert ([line] + rest)[1..] == rest;
  }

  lemma {:induction false} UnlinesOne(line: seq<Byte>)
    ensures Unlines([line] + []) == line + [NEWLINE]
  {
    UnlinesCons(line, []);
  }

  lemma {:induction false} SplitAtNewline(data: seq<Byte>, start: nat, end: nat, tail: seq<Byte>)
    requires start <= end < |data| && data[end] == NEWLINE
    ensures data[start..end] + [NEWLINE] + (data[end + 1..] + tail) == data[start..] + tail
  {
    var line, rest := data[start..end], data[end + 1..];
    assert data[start..] == line + [NEWLINE] + rest;
    Reassociate(line + [NEWLINE], rest, tail);
  }

  lemma {:induction false} Reassociate(a: seq<Byte>, b: seq<Byte>, c: seq<Byte>)
    ensures a + (b + c) == (a + b) + c
  {
  }

  /** What a missing final newline adds. */
  function Closing(data: seq<Byte>, start: nat): seq<Byte>
    requires start <= |data|
  {
    if start < |data| && data[|data| - 1] != NEWLINE then [NEWLINE] else []
  }

  lemma {:induction false} UnlinesFirst(data: seq<Byte>, start: nat, end: nat)
    requires start <= end < |data| && end == LineEnd(data, start)
    ensures Unlines(LinesFrom(data, start)) == data[start..end] + [NEWLINE] + Unlines(LinesFrom(data, end + 1))
  {
    FirstLine(data, start);
    UnlinesCons(data[start..end], LaterLines(data, start));
  }

  /** Cutting into lines loses nothing but whether the last line had a newline. */
  lemma {:induction false} LinesRebuildFile(data: seq<Byte>, start: nat)
    requires start <= |data|
    ensures Unlines(LinesFrom(data, start)) == data[start..] + Closing(data, start)
    decreases |data| - start
  {
    if start == |data| {
      RebuildEnd(data);
    } else if LineEnd(data, start) < |data| {
      LinesRebuildFile(data, LineEnd(data, start) + 1);
      RebuildMore(data, start, LineEnd(data, start));
    } else {
      RebuildLast(data, start);
    }
  }

  lemma {:induction false} RebuildEnd(data: seq<Byte>)
    ensures Unlines(LinesFrom(data, |data|)) == data[|data|..] + Closing(data, |data|)
  {
    assert LinesFrom(data, |data|) == [] && Unlines([]) == [];
  }

  lemma {:induction false} RebuildMore(data: seq<Byte>, start: nat, end: nat)
    requires start <= end < |data| && end == LineEnd(data, start)
    requires Unlines(LinesFrom(data, end + 1)) == data[end + 1..] + Closing(data, end + 1)
    ensures Unlines(LinesFrom(data, start)) == data[start..] + Closing(data, start)
  {
    UnlinesFirst(data, start, end);
    ClosingSkips(data, start, end + 1);
    SplitAtNewline(data, start, end, Closing(data, start));
  }

  lemma {:induction false} RebuildLast(data: seq<Byte>, start: nat)
    requires start < |data| && LineEnd(data, start) == |data|
    ensures Unlines(LinesFrom(data, start)) == data[start..] + Closing(data, start)
  {
    FirstLine(data, start);
    LastLineOpen(data, start);
    UnlinesOne(data[start..|data|]);
    assert data[start..|data|] == data[start..];
  }

  lemma {:induction false} ClosingSkips(data: seq<Byte>, start: nat, next: nat)
    requires start < next <= |data| && data[next - 1] == NEWLINE
    ensures Closing(data, next) == Closing(data, start)
  {
  }

  function Newlines(data: seq<Byte>, start: nat): nat
    requires start <= |data|
    decreases |data| - start
  {
    if start == |data| then 0 else (if data[start] == NEWLINE then 1 else 0) + Newlines(data, start + 1)
  }

  lemma {:induction false} NewlinesSkipLine(data: seq<Byte>, start: nat)
    requires start <= |data|
    ensures Newlines(data, start) == Newlines(data, LineEnd(data, start))
    decreases |data| - start
  {
    if start < |data| && data[start] != NEWLINE {
      NewlinesSkipLine(data, start + 1);
    }
  }

  /** The number of lines is the number of newlines, plus one for a last line that
      lacks its own. */
  lemma {:induction false} LineCount(data: seq<Byte>, start: nat)
    requires start <= |data|
    ensures |LinesFrom(data, start)| ==
            Newlines(data, start) + if start < |data| && data[|data| - 1] != NEWLINE then 1 else 0
    decreases |data| - start
  {
    if start < |data| {
      FirstLine(data, start);
      NewlinesSkipLine(data, start);
      if LineEnd(data, start) < |data| {
        LineCount(data, LineEnd(data, start) + 1);
      } else {
        LastLineOpen(data, start);
      }
    }
  }

  // ----- hash chains

  /** The bucket of hash h among n. */
  function Bucket(h: nat, n: nat): (b: nat)
    requires n > 0
    ensures b < n
  {
    h % n
  }

  /** The bucket each line falls in. */
  ghost function Buckets(keys: seq<Key>): (buckets: seq<nat>)
    ensures |buckets| == |keys|
    ensures forall k {:trigger buckets[k]} :: 0 <= k < |keys| ==> buckets[k] == Bucket(keys[k].h, |keys|)
  {
    seq(|keys|, k requires 0 <= k < |keys| => Bucket(keys[k].h, |keys|))
  }

  function Nexts(lines: seq<DLine>): (nexts: seq<nat>)
    ensures |nexts| == |lines|
    ensures forall k {:trigger nexts[k]} :: 0 <= k < |lines| ==> nexts[k] == lines[k].iNext
  {
    seq(|lines|, k requires 0 <= k < |lines| => lines[k].iNext)
  }

  function Heads(lines: seq<DLine>): (heads: seq<nat>)
    ensures |heads| == |lines|
    ensures forall k {:trigger heads[k]} :: 0 <= k < |lines| ==> heads[k] == lines[k].iHash
  {
    seq(|lines|, k requires 0 <= k < |lines| => lines[k].iHash)
  }

  /** link is 1 + the last of the first `limit` lines that falls in the bucket, or 0
      when none of them does. */
  ghost predicate LastInBucket(buckets: seq<nat>, link: nat, bucket: nat, limit: nat)
    requires limit <= |buckets|
  {
    && link <= limit
    && (link > 0 ==> buckets[link - 1] == bucket)
    && forall k :: link <= k < limit ==> buckets[k] != bucket
  }

  /** The chains of the first `limit` lines: each line links to the one before it in
      its bucket, and each bucket to its last line. */
  ghost predicate ChainsTo(buckets: seq<nat>, nexts: seq<nat>, heads: seq<nat>, limit: nat) {
    && limit <= |buckets| == |nexts| == |heads|
    && (forall i {:trigger nexts[i]} :: 0 <= i < limit ==> LastInBucket(buckets, nexts[i], buckets[i], i))
    && (forall b {:trigger heads[b]} :: 0 <= b < |heads| ==> LastInBucket(buckets, heads[b], b, limit))
  }

  ghost predicate Chained(lines: seq<DLine>) {
    ChainsTo(Buckets(Keys(lines)), Nexts(lines), Heads(lines), |lines|)
  }

  /** Putting line i at the head of its bucket's chain extends the chains by that
      line. */
  lemma {:induction false} ThreadingKeepsChains(
    buckets: seq<nat>, nexts: seq<nat>, heads: seq<nat>, buckets': seq<nat>, i: nat, b: nat)
    requires ChainsTo(buckets, nexts, heads, i) && i < |buckets| && b < |buckets|
    requires buckets' == buckets[i := b]
    ensures ChainsTo(buckets', nexts[i := heads[b]], heads[b := i + 1], i + 1)
  {
    var nexts', heads' := nexts[i := heads[b]], heads[b := i + 1];
    forall k | 0 <= k < i + 1
      ensures LastInBucket(buckets', nexts'[k], buckets'[k], k)
    {
      assert k < i ==> LastInBucket(buckets, nexts[k], buckets[k], k);
      assert LastInBucket(buckets, heads[b], b, i);
    }
    forall c | 0 <= c < |heads|
      ensures LastInBucket(buckets', heads'[c], c, i + 1)
    {
      assert LastInBucket(buckets, heads[c], c, i);
    }
  }

  // ----- breakIntoLines

  method CountLines(data: seq<Byte>) returns (n: nat, ok: bool)
    ensures ok <==> NUL !in data
    ensures ok ==> n == |LinesFrom(data, 0)|
  {
    n := 0;
    var i := 0;
    while i < |data|
      invariant 0 <= i <= |data|
      invariant NUL !in data[..i]
      invariant n + Newlines(data, i) == Newlines(data, 0)
    {
      if data[i] == NUL {
        return 0, false;
      }
      if data[i] == NEWLINE {
        n := n + 1;
      }
      i := i + 1;
    }
    assert data[..|data|] == data;
    LineCount(data, 0);
    if |data| > 0 && data[|data| - 1] != NEWLINE {
      n := n + 1;
    }
    ok := true;
  }

  function KeyFor(line: seq<Byte>, hash: Hash): Key {
    var text := StripReturn(line);
    Key(text, hash(text))
  }

  /** The table holds the file's lines, hashed and chained, up to `count`. */
  ghost predicate Prepared(lines: seq<DLine>, texts: seq<seq<Byte>>, hash: Hash, count: nat) {
    && count <= |lines| == |texts|
    && (forall k :: 0 <= k < count ==> |texts[k]| <= LENGTH_MASK)
    && (forall k :: 0 <= k < count ==>
          lines[k].key == KeyFor(texts[k], hash))
    && ChainsTo(Buckets(Keys(lines)), Nexts(lines), Heads(lines), count)
  }

  /** What filling in line i and threading it into bucket b does to the table. */
  ghost predicate Threaded(before: seq<DLine>, after: seq<DLine>, i: nat, b: nat, key: Key)
    requires i < |before| == |after| && b < |before|
  {
    forall k :: 0 <= k < |after| ==>
      && after[k].key == (if k == i then key else before[k].key)
      && after[k].iNext == (if k == i then before[b].iHash else before[k].iNext)
      && after[k].iHash == (if k == b then i + 1 else before[k].iHash)
  }

  lemma {:induction false} ThreadedChains(before: seq<DLine>, after: seq<DLine>, i: nat, b: nat, key: Key)
    requires i < |before| == |after| && b == Bucket(key.h, |before|)
    requires Threaded(before, after, i, b, key)
    requires ChainsTo(Buckets(Keys(before)), Nexts(before), Heads(before), i)
    ensures ChainsTo(Buckets(Keys(after)), Nexts(after), Heads(after), i + 1)
  {
    var buckets := Buckets(Keys(before));
    ThreadingKeepsChains(buckets, Nexts(before), Heads(before), buckets[i := b], i, b);
    assert Keys(after) == Keys(before)[i := key];
    assert Buckets(Keys(after)) == buckets[i := b];
    assert Nexts(after) == Nexts(before)[i := Heads(before)[b]];
    assert Heads(after) == Heads(before)[b := i + 1];
  }

  lemma {:induction false} ThreadedPrepared(
    before: seq<DLine>, after: seq<DLine>, i: nat, hash: Hash, texts: seq<seq<Byte>>)
    requires i < |before| == |after| && Prepared(before, texts, hash, i)
    requires |texts[i]| <= LENGTH_MASK
    requires Threaded(before, after, i, Bucket(KeyFor(texts[i], hash).h, |before|), KeyFor(texts[i], hash))
    ensures Prepared(after, texts, hash, i + 1)
  {
    var key := KeyFor(texts[i], hash);
    ThreadedChains(before, after, i, Bucket(key.h, |before|), key);
  }

  /** Fills in line i of the table and threads it into its bucket's chain. */
  method ThreadLine(lines: array<DLine>, i: nat, key: Key)
    requires i < lines.Length
    modifies lines
    ensures Threaded(old(lines[..]), lines[..], i, Bucket(key.h, lines.Length), key)
  {
    var bucket := Bucket(key.h, lines.Length);
    lines[i] := lines[i].(key := key);
    lines[i] := lines[i].(iNext := lines[bucket].iHash);
    lines[bucket] := lines[bucket].(iHash := i + 1);
  }

  /** Where the lines that are left start, once i of them are done. */
  ghost predicate At(data: seq<Byte>, texts: seq<seq<Byte>>, i: nat, start: nat) {
    i <= |texts| && (if start <= |data| then texts[i..] == LinesFrom(data, start) else i == |texts|)
  }

  lemma {:induction false} NextLine(data: seq<Byte>, texts: seq<seq<Byte>>, i: nat, start: nat)
    requires At(data, texts, i, start) && i < |texts|
    ensures start < |data|
    ensures texts[i] == data[start..LineEnd(data, start)]
    ensures At(data, texts, i + 1, LineEnd(data, start) + 1)
  {
    var end := LineEnd(data, start);
    assert texts[i] == texts[i..][0];
    assert texts[i + 1..] == texts[i..][1..];
    FirstLine(data, start);
    assert LinesFrom(data, start)[1..] == LaterLines(data, start);
  }

  lemma {:induction false} LineLength(data: seq<Byte>, text: seq<Byte>, start: nat, end: nat)
    requires start <= end <= |data| && text == data[start..end]
    ensures |text| == end - start
  {
  }

  lemma {:induction false} AtStart(data: seq<Byte>, texts: seq<seq<Byte>>)
    requires texts == LinesFrom(data, 0)
    ensures At(data, texts, 0, 0)
  {
    assert texts[0..] == texts;
  }

  /** The line that starts at start, without its newline or a carriage return
      before it, and where it ends. */
  method CutLine(data: seq<Byte>, start: nat) returns (text: seq<Byte>, end: nat)
    requires start <= |data|
    ensures end == LineEnd(data, start)
    ensures text == StripReturn(data[start..end])
  {
    end := start;
    while end < |data| && data[end] != NEWLINE
      invariant start <= end <= |data|
      invariant LineEnd(data, start) == LineEnd(data, end)
    {
      end := end + 1;
    }
    var k := end;
    if k > start && data[k - 1] == RETURN {
      k := k - 1;
    }
    StripSlice(data, start, end);
    text := data[start..k];
  }

  lemma {:induction false} StripSlice(data: seq<Byte>, start: nat, end: nat)
    requires start <= end <= |data|
    ensures StripReturn(data[start..end]) ==
              data[start..if end > start && data[end - 1] == RETURN then end - 1 else end]
  {
    var line := data[start..end];
    if end > start {
      assert line[|line| - 1] == data[end - 1];
      assert line[..|line| - 1] == data[start..end - 1];
    }
  }

  method FillLines(data: seq<Byte>, lines: array<DLine>, hash: Hash, ghost texts: seq<seq<Byte>>) returns (ok: bool)
    requires texts == LinesFrom(data, 0) && lines.Length == |texts| && Prepared(lines[..], texts, hash, 0)
    modifies lines
    ensures ok <==> forall k :: 0 <= k < |texts| ==> |texts[k]| <= LENGTH_MASK
    ensures ok ==> Prepared(lines[..], texts, hash, |texts|)
  {
    var start: nat := 0;
    var i: nat := 0;
    AtStart(data, texts);
    while i < lines.Length
      invariant i <= lines.Length && At(data, texts, i, start) && Prepared(lines[..], texts, hash, i)
      invariant forall k :: 0 <= k < i ==> |texts[k]| <= LENGTH_MASK
    {
      ok, start := FillLine(data, lines, hash, texts, i, start);
      if !ok {
        return;
      }
      i := i + 1;
    }
    ok := true;
  }

  /** Line i, which starts at start, is entered, unless it is too long. */
  method FillLine(data: seq<Byte>, lines: array<DLine>, hash: Hash, ghost texts: seq<seq<Byte>>, i: nat, start: nat)
    returns (ok: bool, next: nat)
    requires i < lines.Length == |texts| && At(data, texts, i, start) && Prepared(lines[..], texts, hash, i)
    modifies lines
    ensures ok <==> |texts[i]| <= LENGTH_MASK
    ensures ok ==> At(data, texts, i + 1, next) && Prepared(lines[..], texts, hash, i + 1)
  {
    NextLine(data, texts, i, start);
    var text, end := CutLine(data, start);
    LineLength(data, texts[i], start, end);
    next := end + 1;
    ok := end - start <= LENGTH_MASK;
    if ok {
      EnterLine(lines, hash, texts, i, text);
    }
  }

  method EnterLine(lines: array<DLine>, hash: Hash, ghost texts: seq<seq<Byte>>, i: nat, text: seq<Byte>)
    requires i < lines.Length == |texts| && Prepared(lines[..], texts, hash, i)
    requires |texts[i]| <= LENGTH_MASK && text == StripReturn(texts[i])
    modifies lines
    ensures Prepared(lines[..], texts, hash, i + 1)
  {
    ghost var table := lines[..];
    ThreadLine(lines, i, Key(text, hash(text)));
    ThreadedPrepared(table, lines[..], i, hash, texts);
  }

  method BreakIntoLines(file: seq<Byte>, hash: Hash) returns (lines: array<DLine>, ok: bool)
    ensures fresh(lines)
    ensures ok <==> Diffable(file)
    ensures ok ==> Prepared(lines[..], FileLines(file), hash, |FileLines(file)|)
  {
    var data := TrimBom(file);
    var n, noNul := CountLines(data);
    if !noNul {
      lines := new DLine[0];
      return lines, false;
    }
    lines := new DLine[n](_ => BLANK);
    assert forall k :: 0 <= k < n ==> lines[..][k] == BLANK;
    ok := FillLines(data, lines, hash, FileLines(file));
  }
}
