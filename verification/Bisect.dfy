/** Searching history for the check-in where something went bad. */
module Bisect {
  import opened Basics
  import opened HistoryPath

  datatype LogEntry = Good(rid: nat) | Bad(rid: nat) | Skipped(rid: nat)

  /** What to do next: test a check-in, or stop, for one reason or another. */
  datatype Verdict = Test(rid: nat) | Complete(bad: nat) | Unmarked | BelowHorizon | NoPath

  ghost function SkipSet(log: seq<LogEntry>): set<nat> {
    set e | e in log && e.Skipped? :: e.rid
  }

  predicate Interior(p: seq<nat>, i: int) {
    0 < i < |p| - 1
  }

  /** An interior check-in of the path that is not skipped. */
  predicate Open(p: seq<nat>, skip: set<nat>, i: int) {
    Interior(p, i) && p[i] !in skip
  }

  function Distance(i: int, j: int): nat {
    if i < j then j - i else i - j
  }

  /** The open check-in nearest the middle, the later of two equally near. */
  ghost predicate NearestOpen(p: seq<nat>, skip: set<nat>, i: int) {
    && Open(p, skip, i)
    && forall j {:trigger Open(p, skip, j)} :: Open(p, skip, j) ==>
         Distance(i, |p| / 2) < Distance(j, |p| / 2) || (Distance(i, |p| / 2) == Distance(j, |p| / 2) && j <= i)
  }

  /** The primary links, whichever check-ins are skipped: skipping only moves the choice along the path. */
  function Primary(plink: seq<Link>): Graph {
    Graph(plink, true, {})
  }

  /** A way from a to b along primary parent links, taken either way. */
  ghost predicate PrimaryPath(plink: seq<Link>, p: seq<nat>, a: nat, b: nat) {
    && p != [] && p[0] == a && p[|p| - 1] == b
    && forall i {:trigger p[i]} :: 0 < i < |p| ==>
         exists l :: l in plink && l.primary
                     && ((l.pid == p[i - 1] && l.cid == p[i]) || (l.cid == p[i - 1] && l.pid == p[i]))
  }

  lemma {:induction false} PrimaryWalks(plink: seq<Link>, p: seq<nat>, a: nat, b: nat)
    ensures PrimaryPath(plink, p, a, b) <==> WalkTo(Primary(plink), p, a, b)
  {
    var g := Primary(plink);
    if PrimaryPath(plink, p, a, b) {
      forall i {:trigger p[i]} | 0 < i < |p| ensures Joined(g, p[i - 1], p[i]) {
        var l :| l in plink && l.primary
                 && ((l.pid == p[i - 1] && l.cid == p[i]) || (l.cid == p[i - 1] && l.pid == p[i]));
        assert Joins(g, l, p[i - 1], p[i]);
      }
    }
    if WalkTo(g, p, a, b) {
      forall i {:trigger p[i]} | 0 < i < |p|
        ensures exists l :: l in plink && l.primary
                            && ((l.pid == p[i - 1] && l.cid == p[i]) || (l.cid == p[i - 1] && l.pid == p[i]))
      {
        assert Joined(g, p[i - 1], p[i]);
        var l :| l in g.plink && Joins(g, l, p[i - 1], p[i]);
        assert l.primary;
      }
    }
  }

  lemma {:induction false} AllPrimaryWalks(plink: seq<Link>, a: nat, b: nat)
    ensures forall q :: PrimaryPath(plink, q, a, b) <==> WalkTo(Primary(plink), q, a, b)
  {
    forall q ensures PrimaryPath(plink, q, a, b) <==> WalkTo(Primary(plink), q, a, b) {
      PrimaryWalks(plink, q, a, b);
    }
  }

  /** The search outward from the middle. */
  method Outward(p: seq<nat>, skip: set<nat>) returns (best: int)
    requires |p| > 2
    ensures best >= 0 <==> exists i :: Open(p, skip, i)
    ensures best >= 0 ==> NearestOpen(p, skip, best)
  {
    var mid := |p| / 2;
    for d := 0 to |p|
      invariant forall j {:trigger Open(p, skip, j)} :: Open(p, skip, j) ==> Distance(j, mid) >= d
    {
      if Open(p, skip, mid + d) {
        return mid + d;
      }
      if Open(p, skip, mid - d) {
        return mid - d;
      }
    }
    best := -1;
  }

  class Session {
    var good: Option<nat>
    var bad: Option<nat>
    var log: seq<LogEntry>

    method MarkGood(rid: nat)
      modifies this
      ensures good == Some(rid) && bad == old(bad) && log == old(log) + [Good(rid)]
      ensures SkipSet(log) == old(SkipSet(log))
    {
      good := Some(rid);
      log := log + [Good(rid)];
    }

    method MarkBad(rid: nat)
      modifies this
      ensures bad == Some(rid) && good == old(good) && log == old(log) + [Bad(rid)]
      ensures SkipSet(log) == old(SkipSet(log))
    {
      bad := Some(rid);
      log := log + [Bad(rid)];
    }

    method Skip(rid: nat)
      modifies this`log
      ensures log == old(log) + [Skipped(rid)] && SkipSet(log) == old(SkipSet(log)) + {rid}
    {
      log := log + [Skipped(rid)];
    }

    /** The skipped check-ins, none if there are none. */
    method ParseSkipSet() returns (skip: Option<set<nat>>)
      ensures skip == None <==> SkipSet(log) == {}
      ensures skip.Some? ==> skip.value == SkipSet(log)
    {
      var found: set<nat> := {};
      for i := 0 to |log|
        invariant found == SkipSet(log[..i])
      {
        assert log[..i + 1] == log[..i] + [log[i]];
        if log[i].Skipped? {
          found := found + {log[i].rid};
        }
      }
      assert log[..|log|] == log;
      skip := if found == {} then None else Some(found);
    }

    /**
     * A check-in strictly between the ends of a shortest path and not skipped,
     * the nearest to its middle, whenever the path has one; complete when it has none.
     * A good end below the horizon is refused before any path is sought.
     */
    method Next(plink: seq<Link>, below: set<nat>) returns (r: Verdict, ghost p: seq<nat>)
      ensures r.Unmarked? <==> good == None || bad == None
      ensures r.BelowHorizon? <==> good.Some? && bad.Some? && good.value in below
      ensures r.NoPath? <==> good.Some? && bad.Some? && good.value !in below
                             && !exists q :: PrimaryPath(plink, q, good.value, bad.value)
      ensures r.Test? || r.Complete? ==>
                && good.Some? && bad.Some? && PrimaryPath(plink, p, good.value, bad.value)
                && forall q :: PrimaryPath(plink, q, good.value, bad.value) ==> |p| <= |q|
      ensures r.Test? ==> exists i :: NearestOpen(p, SkipSet(log), i) && p[i] == r.rid
      ensures r.Complete? ==> r.bad == bad.value && !exists i :: Open(p, SkipSet(log), i)
      ensures r.Test? && SkipSet(log) == {} ==> r.rid == p[|p| / 2]
    {
      p := [];
      if good == None || bad == None {
        return Unmarked, [];
      }
      if good.value in below {
        return BelowHorizon, [];
      }
      var skip := ParseSkipSet();
      AllPrimaryWalks(plink, good.value, bad.value);
      var path := Shortest(Primary(plink), good.value, bad.value);
      if path == None {
        return NoPath, [];
      }
      var way := path.value;
      p := way;
      if |way| <= 2 {
        return Complete(bad.value), p;
      }
      var mid := |way| / 2;
      assert skip == None ==> NearestOpen(way, SkipSet(log), mid);
      if skip.Some? {
        mid := Outward(way, skip.value);
        if mid < 0 {
          return Complete(bad.value), p;
        }
      }
      r := Test(way[mid]);
    }
  }

  // -------------------------------------------------------------------------- halving

  lemma {:induction false} Part(g: Graph, p: seq<nat>, a: nat, b: nat, i: nat)
    requires WalkTo(g, p, a, b) && i < |p|
    ensures WalkTo(g, p[..i + 1], a, p[i]) && WalkTo(g, p[i..], p[i], b)
  {
    var front, back := p[..i + 1], p[i..];
    forall k {:trigger front[k]} | 0 < k < |front| ensures Joined(g, front[k - 1], front[k]) && front[k] !in g.skip {
      assert front[k] == p[k] && front[k - 1] == p[k - 1];
    }
    forall k {:trigger back[k]} | 0 < k < |back| ensures Joined(g, back[k - 1], back[k]) && back[k] !in g.skip {
      assert back[k] == p[i + k] && back[k - 1] == p[i + k - 1];
    }
  }

  function Links(p: seq<nat>): nat
    requires p != []
  {
    |p| - 1
  }

  /** Half of n, rounded up. */
  function Half(n: nat): nat {
    (n + 1) / 2
  }

  /** Marking the middle either way leaves at most half the links, rounded up. */
  lemma {:induction false} MarkHalves(plink: seq<Link>, p: seq<nat>, good: nat, bad: nat, q: seq<nat>)
    requires ShortestWalk(Primary(plink), p, good, bad) && |p| > 2
    requires ShortestWalk(Primary(plink), q, p[|p| / 2], bad) || ShortestWalk(Primary(plink), q, good, p[|p| / 2])
    ensures q != [] && Links(q) <= Half(Links(p))
  {
    Part(Primary(plink), p, good, bad, |p| / 2);
  }

  /** The middle of the path has been marked, good or bad, and is the new end. */
  predicate MarkedMiddle(ends: (nat, nat), path: seq<nat>, next: (nat, nat)) {
    |path| > 2 && (next == (path[|path| / 2], ends.1) || next == (ends.0, path[|path| / 2]))
  }

  /** A session's marks: ends, and the shortest path between them, after each. */
  ghost predicate Marks(plink: seq<Link>, ends: seq<(nat, nat)>, paths: seq<seq<nat>>) {
    && |ends| == |paths| > 0
    && ShortestWalk(Primary(plink), paths[0], ends[0].0, ends[0].1)
    && (|ends| > 1 ==> MarkedMiddle(ends[0], paths[0], ends[1]) && Marks(plink, ends[1..], paths[1..]))
  }

  function Pow2(n: nat): nat {
    if n == 0 then 1 else 2 * Pow2(n - 1)
  }

  /**
   * With nothing skipped, n marks take more than 2^(n-1) links to begin with:
   * the search ends within the logarithm of their number, rounded up.
   */
  lemma {:induction false} MarksBounded(plink: seq<Link>, ends: seq<(nat, nat)>, paths: seq<seq<nat>>)
    requires Marks(plink, ends, paths) && |paths| > 1
    ensures paths[0] != [] && Pow2(|paths| - 2) < Links(paths[0])
    decreases |paths|
  {
    assert Marks(plink, ends[1..], paths[1..]);
    assert ends[1..][0] == ends[1] && paths[1..][0] == paths[1];
    MarkHalves(plink, paths[0], ends[0].0, ends[0].1, paths[1]);
    if |paths| > 2 {
      MarksBounded(plink, ends[1..], paths[1..]);
    }
  }
}
