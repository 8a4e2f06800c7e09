/** How far the hash chains of the new file reach: which lines the search for
    anchors finds, and when it has to fall back on the exhaustive search. */
module ChainSearch {
  import opened LineHashing
  import opened LineTable
  import opened CommonRun

  /** The largest cutoff a chain is followed to. */
  const LAST_CUTOFF: nat := 64

  // ----- counting along a chain

  /** How many lines from lo on fall in bucket b. */
  ghost function InBucket(buckets: seq<nat>, b: nat, lo: nat): nat
    requires lo <= |buckets|
    decreases |buckets| - lo
  {
    if lo == |buckets| then 0
    else InBucket(buckets, b, lo + 1) + if buckets[lo] == b then 1 else 0
  }

  lemma {:induction false} NoneBetween(buckets: seq<nat>, b: nat, lo: nat, hi: nat)
    requires lo <= hi <= |buckets| && forall k :: lo <= k < hi ==> buckets[k] != b
    ensures InBucket(buckets, b, lo) == InBucket(buckets, b, hi)
    decreases hi - lo
  {
    if lo < hi {
      NoneBetween(buckets, b, lo + 1, hi);
    }
  }

  lemma {:induction false} MoreFromBefore(buckets: seq<nat>, b: nat, lo: nat, hi: nat)
    requires lo <= hi <= |buckets|
    ensures InBucket(buckets, b, lo) >= InBucket(buckets, b, hi)
    decreases hi - lo
  {
    if lo < hi {
      MoreFromBefore(buckets, b, lo + 1, hi);
    }
  }

  lemma {:induction false} NoMoreThanLines(buckets: seq<nat>, b: nat, lo: nat)
    requires lo <= |buckets|
    ensures InBucket(buckets, b, lo) <= |buckets| - lo
    decreases |buckets| - lo
  {
    if lo < |buckets| {
      NoMoreThanLines(buckets, b, lo + 1);
    }
  }

  /** How many lines come before line k in the chain of its bucket: those after it in
      the file, for the chain runs backwards. */
  ghost function DepthOf(T: seq<Key>, k: nat): nat
    requires k < |T|
  {
    InBucket(Buckets(T), Bucket(T[k].h, |T|), k + 1)
  }

  // ----- anchors

  /** Line k of the range, not its last, equals the key. */
  ghost predicate Anchor(T: seq<Key>, key: Key, s2: nat, e2: nat, k: nat) {
    s2 <= k < e2 - 1 && k < |T| && T[k] == key
  }

  /** Some such line is at most n deep in its chain. */
  ghost predicate AnchorWithin(T: seq<Key>, key: Key, s2: nat, e2: nat, n: nat) {
    exists k :: Anchor(T, key, s2, e2, k) && DepthOf(T, k) <= n
  }

  /** No line of the old range before hi has an anchor at most n deep. */
  ghost predicate AnchorFree(r: Ranges, F: seq<Key>, T: seq<Key>, hi: nat, n: nat)
    requires hi <= |F|
  {
    forall i {:trigger F[i]} :: r.s1 <= i < hi ==> !AnchorWithin(T, F[i], r.s2, r.e2, n)
  }

  /** No line of the old range before hi has an anchor at all. */
  ghost predicate Anchorless(r: Ranges, F: seq<Key>, T: seq<Key>, hi: nat)
    requires hi <= |F|
  {
    forall i, k {:trigger Anchor(T, F[i], r.s2, r.e2, k)} :: r.s1 <= i < hi ==> !Anchor(T, F[i], r.s2, r.e2, k)
  }

  /** The anchor search finds something. */
  ghost predicate Anchored(r: Ranges, F: seq<Key>, T: seq<Key>)
    requires InBounds(r, F, T)
  {
    !AnchorFree(r, F, T, r.e1, LAST_CUTOFF + 1)
  }

  predicate Small(r: Ranges) {
    (r.e1 - r.s1) * (r.e2 - r.s2) < 2500
  }

  /** The ranges are searched exhaustively: they are small and no anchor is found. */
  ghost predicate Exhaustive(r: Ranges, F: seq<Key>, T: seq<Key>)
    requires InBounds(r, F, T)
  {
    Small(r) && !Anchored(r, F, T)
  }

  lemma {:induction false} DeeperAnchor(r: Ranges, F: seq<Key>, T: seq<Key>, hi: nat, m: nat, n: nat)
    requires hi <= |F| && AnchorFree(r, F, T, hi, n) && m <= n
    ensures AnchorFree(r, F, T, hi, m)
  {
    forall i {:trigger F[i]} | r.s1 <= i < hi ensures !AnchorWithin(T, F[i], r.s2, r.e2, m) {
      assert !AnchorWithin(T, F[i], r.s2, r.e2, n);
    }
  }

  lemma {:induction false} AnchorlessFree(r: Ranges, F: seq<Key>, T: seq<Key>, hi: nat, n: nat)
    requires hi <= |F| && Anchorless(r, F, T, hi)
    ensures AnchorFree(r, F, T, hi, n)
  {
  }

  /** The pass the search stops after decides for the largest cutoff. */
  lemma {:induction false} PassDecides(r: Ranges, F: seq<Key>, T: seq<Key>, cutoff: nat, more: bool)
    requires InBounds(r, F, T) && cutoff <= LAST_CUTOFF
    requires !more && AnchorFree(r, F, T, r.e1, cutoff + 1) ==> Anchorless(r, F, T, r.e1)
    requires !AnchorFree(r, F, T, r.e1, cutoff + 1) || !more || cutoff == LAST_CUTOFF
    ensures AnchorFree(r, F, T, r.e1, cutoff + 1) <==> !Anchored(r, F, T)
  {
    if AnchorFree(r, F, T, r.e1, LAST_CUTOFF + 1) {
      DeeperAnchor(r, F, T, r.e1, cutoff + 1, LAST_CUTOFF + 1);
    }
    if !more && AnchorFree(r, F, T, r.e1, cutoff + 1) {
      AnchorlessFree(r, F, T, r.e1, LAST_CUTOFF + 1);
    }
  }

  // ----- walking a chain

  /** The walk has come to link j of the chain of bucket b, having passed no line of
      the window that equals the key. */
  ghost predicate Passed(buckets: seq<nat>, T: seq<Key>, key: Key, b: nat, j: nat, s2: nat, e2: nat) {
    && j <= |buckets| == |T|
    && (j > 0 ==> buckets[j - 1] == b)
    && forall k :: j <= k < |T| && s2 <= k < e2 - 1 && buckets[k] == b ==> key != T[k]
  }

  lemma {:induction false} StartsPassed(
    buckets: seq<nat>, nexts: seq<nat>, heads: seq<nat>, T: seq<Key>, key: Key, b: nat, s2: nat, e2: nat)
    requires ChainsTo(buckets, nexts, heads, |T|) && |buckets| == |T| && b < |T|
    ensures Passed(buckets, T, key, b, heads[b], s2, e2) && InBucket(buckets, b, heads[b]) == 0
  {
    assert LastInBucket(buckets, heads[b], b, |T|);
    NoneBetween(buckets, b, heads[b], |T|);
  }

  lemma {:induction false} NextPasses(
    buckets: seq<nat>, nexts: seq<nat>, heads: seq<nat>, T: seq<Key>, key: Key, b: nat, j: nat, s2: nat, e2: nat)
    requires ChainsTo(buckets, nexts, heads, |T|) && 0 < j
    requires Passed(buckets, T, key, b, j, s2, e2)
    requires s2 <= j - 1 < e2 - 1 ==> key != T[j - 1]
    ensures nexts[j - 1] < j
    ensures Passed(buckets, T, key, b, nexts[j - 1], s2, e2)
    ensures InBucket(buckets, b, nexts[j - 1]) == InBucket(buckets, b, j) + 1
  {
    assert LastInBucket(buckets, nexts[j - 1], buckets[j - 1], j - 1);
    NoneBetween(buckets, b, nexts[j - 1], j - 1);
  }

  lemma {:induction false} PassedAll(T: seq<Key>, key: Key, j: nat, s2: nat, e2: nat)
    requires |T| > 0 && e2 <= |T|
    requires Passed(Buckets(T), T, key, Bucket(key.h, |T|), j, s2, e2)
    ensures forall k :: s2 <= k < e2 - 1 && k >= j ==> key != T[k]
  {
    forall k | s2 <= k < e2 - 1 && k >= j
      ensures Buckets(T)[k] == Bucket(T[k].h, |T|)
    {
    }
  }

  /** A walk cut off has passed too many lines for any anchor left to be within reach. */
  lemma {:induction false} CutOff(T: seq<Key>, key: Key, j: nat, s2: nat, e2: nat, cutoff: nat)
    requires |T| > 0 && e2 <= |T| && 0 < j
    requires Passed(Buckets(T), T, key, Bucket(key.h, |T|), j, s2, e2)
    requires s2 <= j - 1 < e2 - 1 ==> key != T[j - 1]
    requires InBucket(Buckets(T), Bucket(key.h, |T|), j) == cutoff + 1
    ensures !AnchorWithin(T, key, s2, e2, cutoff + 1)
  {
    PassedAll(T, key, j, s2, e2);
    forall k: nat | Anchor(T, key, s2, e2, k) ensures DepthOf(T, k) > cutoff + 1 {
      MoreFromBefore(Buckets(T), Bucket(key.h, |T|), k + 1, j - 1);
    }
  }

  /** A walk that ends has found the anchor nearest its start, or there is none. */
  lemma {:induction false} FoundWithin(T: seq<Key>, key: Key, j: nat, s2: nat, e2: nat, cutoff: nat)
    requires |T| > 0 && e2 <= |T| && j <= |T|
    requires j > 0 ==> s2 < j < e2 && key == T[j - 1] && InBucket(Buckets(T), Bucket(key.h, |T|), j) <= cutoff + 1
    requires forall k :: s2 <= k < e2 - 1 && k >= j ==> key != T[k]
    ensures j > 0 <==> AnchorWithin(T, key, s2, e2, cutoff + 1)
  {
    if j > 0 {
      assert Anchor(T, key, s2, e2, j - 1) && DepthOf(T, j - 1) <= cutoff + 1;
    }
  }

  /** Every run of such ranges scores above the lowest score. */
  predicate Scorable(r: Ranges) {
    (r.e1 - r.s1) + (r.e2 - r.s2) < 9223300000 * 1000000000
  }

  lemma {:induction false} ScoreAboveLowest(a: nat, b: nat, n: nat, skew: nat, dist: nat)
    requires n > 0 && skew <= a + b && dist <= a + b && a + b < 9223300000 * 1000000000
    ensures n * (a + b) - (skew + dist) > -9223300000 * 1000000000
  {
    ProductAtLeast(n, a + b);
  }

  lemma {:induction false} ProductAtLeast(n: nat, k: nat)
    requires n > 0
    ensures n * k >= k
  {
    if n > 1 {
      ProductAtLeast(n - 1, k);
      assert n * k == (n - 1) * k + k;
    }
  }

  lemma {:induction false} SmallScorable(r: Ranges)
    requires r.s1 < r.e1 && r.s2 < r.e2 && Small(r)
    ensures Scorable(r)
  {
    SumBelowProduct(r.e1 - r.s1, r.e2 - r.s2);
  }

  lemma {:induction false} SumBelowProduct(a: nat, b: nat)
    requires a > 0 && b > 0
    ensures a + b <= a * b + 1
  {
    if b > 1 {
      SumBelowProduct(a, b - 1);
      assert a * b == a * (b - 1) + a;
    }
  }

  // ----- looking past the end

  /** The search of these ranges looks past the last line of the old file. */
  ghost predicate Overruns(r: Ranges, F: seq<Key>, T: seq<Key>)
    requires InBounds(r, F, T)
  {
    Exhaustive(r, F, T) && r.e1 == |F| && Overlooks(r, F, T, r.e1)
  }

  ghost predicate OneOverruns(tried: seq<Ranges>, F: seq<Key>, T: seq<Key>) {
    exists k :: 0 <= k < |tried| && InBounds(tried[k], F, T) && Overruns(tried[k], F, T)
  }

  lemma {:induction false} MoreTried(tried: seq<Ranges>, r: Ranges, F: seq<Key>, T: seq<Key>)
    requires InBounds(r, F, T)
    ensures OneOverruns(tried + [r], F, T) <==> OneOverruns(tried, F, T) || Overruns(r, F, T)
  {
    var more := tried + [r];
    if OneOverruns(tried, F, T) {
      var k :| 0 <= k < |tried| && InBounds(tried[k], F, T) && Overruns(tried[k], F, T);
      assert more[k] == tried[k];
    }
    assert more[|tried|] == r;
  }

  /** Some line of the new file has more lines before it in its chain than the last
      cutoff lets pass: its bucket holds at least LAST_CUTOFF + 3 lines. */
  ghost predicate Crowded(T: seq<Key>) {
    exists k: nat :: k < |T| && DepthOf(T, k) > LAST_CUTOFF + 1
  }

  /** A look past the range comes from a line that could have been an anchor. */
  lemma {:induction false} OverlookedAnchor(r: Ranges, F: seq<Key>, T: seq<Key>) returns (i: nat, k: nat)
    requires InBounds(r, F, T) && Overlooks(r, F, T, r.e1)
    ensures r.s1 <= i < r.e1 && Anchor(T, F[i], r.s2, r.e2, k)
  {
    i :| i < r.e1 && RowOverlooks(r, F, T, i, r.e2) && RowsLack(r, F, T, i, r.e1 - i);
    k :| k < r.e2 && OverlooksAt(r, F, T, i, k);
    var j :| r.s2 <= j < k && Fits(r, F, T, i, j, r.e1 - i);
  }

  lemma {:induction false} OverrunNeedsCrowd(tried: seq<Ranges>, F: seq<Key>, T: seq<Key>)
    ensures OneOverruns(tried, F, T) ==> Crowded(T)
  {
    if OneOverruns(tried, F, T) {
      var n :| 0 <= n < |tried| && InBounds(tried[n], F, T) && Overruns(tried[n], F, T);
      var i, k := OverlookedAnchor(tried[n], F, T);
      assert !AnchorWithin(T, F[i], tried[n].s2, tried[n].e2, LAST_CUTOFF + 1);
    }
  }
}
