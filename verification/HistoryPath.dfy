/** Shortest paths between check-ins, breadth first over parent links taken either way. */
module HistoryPath {
  import opened Basics

  /** One parent link; the first parent is the primary one. */
  datatype Link = Link(pid: nat, cid: nat, primary: bool)

  /** A check-in reached, and the one it was reached from. */
  datatype Node = Root(rid: nat) | Via(rid: nat, from: Node)

  /** What the search may use: the links, the primary ones only if direct, off the skipped check-ins. */
  datatype Graph = Graph(plink: seq<Link>, direct: bool, skip: set<nat>)

  predicate Joins(g: Graph, l: Link, a: nat, b: nat) {
    (g.direct ==> l.primary) && ((l.pid == a && l.cid == b) || (l.cid == a && l.pid == b))
  }

  ghost predicate Joined(g: Graph, a: nat, b: nat) {
    exists l :: l in g.plink && Joins(g, l, a, b)
  }

  /** A way along links, no check-in after the first of them skipped. */
  ghost predicate Walk(g: Graph, p: seq<nat>) {
    && p != []
    && (forall i {:trigger p[i]} :: 0 < i < |p| ==> Joined(g, p[i - 1], p[i]) && p[i] !in g.skip)
  }

  ghost predicate WalkTo(g: Graph, p: seq<nat>, a: nat, b: nat) {
    Walk(g, p) && p[0] == a && p[|p| - 1] == b
  }

  ghost predicate ShortestWalk(g: Graph, p: seq<nat>, a: nat, b: nat) {
    WalkTo(g, p, a, b) && forall q :: WalkTo(g, q, a, b) ==> |p| <= |q|
  }

  function Trail(n: Node): (p: seq<nat>)
    ensures p != [] && p[|p| - 1] == n.rid
  {
    match n
    case Root(rid) => [rid]
    case Via(rid, from) => Trail(from) + [rid]
  }

  ghost function Depth(n: Node): nat {
    |Trail(n)| - 1
  }

  // ------------------------------------------------------------------ parts of walks

  lemma {:induction false} Extend(g: Graph, p: seq<nat>, a: nat, b: nat, c: nat)
    requires WalkTo(g, p, a, b) && Joined(g, b, c) && c !in g.skip
    ensures WalkTo(g, p + [c], a, c)
  {
  }

  lemma {:induction false} Shorten(g: Graph, p: seq<nat>, a: nat, b: nat)
    requires WalkTo(g, p, a, b) && |p| > 1
    ensures WalkTo(g, p[..|p| - 1], a, p[|p| - 2]) && Joined(g, p[|p| - 2], b) && b !in g.skip
  {
    var q := p[..|p| - 1];
    assert forall i {:trigger q[i]} :: 0 <= i < |q| ==> q[i] == p[i];
    forall i {:trigger q[i]} | 0 < i < |q| ensures Joined(g, q[i - 1], q[i]) && q[i] !in g.skip {
      assert q[i] == p[i] && q[i - 1] == p[i - 1];
    }
    assert p[|p| - 1] == b;
  }

  // ------------------------------------------------------------------------ neighbours

  ghost function Ids(plink: seq<Link>): set<nat> {
    (set l | l in plink :: l.pid) + (set l | l in plink :: l.cid)
  }

  method Neighbors(g: Graph, rid: nat) returns (result: seq<nat>)
    ensures forall b :: b in result <==> Joined(g, rid, b)
    ensures forall b :: b in result ==> b in Ids(g.plink)
  {
    result := [];
    var n := |g.plink|;
    for i := 0 to n
      invariant forall b :: b in result <==>
                  exists k :: 0 <= k < i && (g.direct ==> g.plink[k].primary)
                              && g.plink[k].pid == rid && g.plink[k].cid == b
    {
      var l := g.plink[i];
      if l.pid == rid && (g.direct ==> l.primary) {
        result := result + [l.cid];
      }
    }
    ghost var children := result;
    for i := 0 to n
      invariant forall b :: b in result <==>
                  b in children ||
                  exists k :: 0 <= k < i && (g.direct ==> g.plink[k].primary)
                              && g.plink[k].cid == rid && g.plink[k].pid == b
    {
      var l := g.plink[i];
      if l.cid == rid && (g.direct ==> l.primary) {
        result := result + [l.pid];
      }
    }
    forall b ensures b in result <==> Joined(g, rid, b) {
      if Joined(g, rid, b) {
        var l :| l in g.plink && Joins(g, l, rid, b);
        var k :| 0 <= k < n && g.plink[k] == l;
      }
      if b in result {
        var k :| 0 <= k < n && Joins(g, g.plink[k], rid, b);
        assert g.plink[k] in g.plink;
      }
    }
  }

  // ---------------------------------------------------------------------- the search

  /** The check-ins waiting in the queue. */
  ghost function Waiting(queue: seq<Node>): set<nat> {
    set n | n in queue :: n.rid
  }

  /** A queued check-in was reached by a shortest walk, k or k + 1 links long. */
  ghost predicate Reached(g: Graph, a: nat, visited: set<nat>, k: nat, n: Node) {
    && WalkTo(g, Trail(n), a, n.rid) && n.rid in visited
    && k <= Depth(n) <= k + 1
    && (forall q :: WalkTo(g, q, a, n.rid) ==> Depth(n) <= |q| - 1)
  }

  /** Every walk of at most k links ends at a visited check-in. */
  ghost predicate Within(g: Graph, a: nat, visited: set<nat>, k: nat) {
    forall q {:trigger Walk(g, q)} :: Walk(g, q) && q[0] == a && |q| - 1 <= k ==> q[|q| - 1] in visited
  }

  /** The links of a check-in dealt with lead to visited ones. */
  ghost predicate Closed(g: Graph, visited: set<nat>, done: set<nat>) {
    forall v, w {:trigger Joined(g, v, w)} :: v in done && Joined(g, v, w) ==> w in visited
  }

  /**
   * The search at distance k: queued check-ins are at k, then k + 1; those visited
   * are queued, being dealt with (open) or dealt with (done).
   */
  ghost predicate Searching(
    g: Graph, a: nat, visited: set<nat>, done: set<nat>, open: set<nat>, queue: seq<Node>, k: nat)
  {
    && g.skip <= visited && a in visited
    && (forall n :: n in queue ==> Reached(g, a, visited, k, n))
    && (forall i, j :: 0 <= i < j < |queue| ==> Depth(queue[i]) <= Depth(queue[j]))
    && (forall v :: v in visited ==> (v in g.skip && v != a) || v in done || v in open || v in Waiting(queue))
    && Closed(g, visited, done)
    && Within(g, a, visited, k)
  }

  lemma {:induction false} PrefixVisited(g: Graph, a: nat, visited: set<nat>, k: nat, q: seq<nat>)
    requires Within(g, a, visited, k) && Walk(g, q) && q[0] == a && |q| - 1 == k + 1
    ensures WalkTo(g, q[..|q| - 1], a, q[|q| - 2]) && q[|q| - 2] in visited && Joined(g, q[|q| - 2], q[|q| - 1])
    ensures q[|q| - 2] !in g.skip || q[|q| - 2] == a
  {
    Shorten(g, q, a, q[|q| - 1]);
    assert Walk(g, q[..|q| - 1]);
    assert |q| > 2 ==> q[|q| - 2] !in g.skip;
  }

  /** With none left at distance k, the visited reach one link further. */
  lemma {:induction false} Advance(g: Graph, a: nat, visited: set<nat>, done: set<nat>, queue: seq<Node>, k: nat)
    requires Searching(g, a, visited, done, {}, queue, k)
    requires forall n :: n in queue ==> Depth(n) > k
    ensures Within(g, a, visited, k + 1)
  {
    forall q {:trigger Walk(g, q)} | Walk(g, q) && q[0] == a && |q| - 1 <= k + 1 ensures q[|q| - 1] in visited {
      if |q| - 1 == k + 1 {
        PrefixVisited(g, a, visited, k, q);
        FarFromHere(g, a, visited, queue, k, q[..|q| - 1], q[|q| - 2]);
      }
    }
  }

  /** What is at most k links away is not queued further out. */
  lemma {:induction false} FarFromHere(
    g: Graph, a: nat, visited: set<nat>, queue: seq<Node>, k: nat, q: seq<nat>, u: nat)
    requires forall n :: n in queue ==> Reached(g, a, visited, k, n) && Depth(n) > k
    requires WalkTo(g, q, a, u) && |q| - 1 <= k
    ensures u !in Waiting(queue)
  {
    forall n | n in queue ensures n.rid != u {
      assert Reached(g, a, visited, k, n);
    }
  }

  /** A newly found neighbour of the open check-in joins the queue at distance k + 1. */
  lemma {:induction false} Found(g: Graph, a: nat, visited: set<nat>, k: nat, cur: Node, b: nat)
    requires g.skip <= visited && Within(g, a, visited, k)
    requires WalkTo(g, Trail(cur), a, cur.rid) && Depth(cur) == k
    requires Joined(g, cur.rid, b) && b !in visited
    ensures Reached(g, a, visited + {b}, k, Via(b, cur)) && Depth(Via(b, cur)) == k + 1
    ensures ShortestWalk(g, Trail(Via(b, cur)), a, b)
  {
    Extend(g, Trail(cur), a, cur.rid, b);
    forall q | WalkTo(g, q, a, b) ensures k + 1 <= |q| - 1 {
      assert Walk(g, q) && q[0] == a;
    }
  }

  lemma {:induction false} QueueMore(
    g: Graph, a: nat, visited: set<nat>, done: set<nat>, open: set<nat>, queue: seq<Node>, k: nat, n: Node)
    requires Searching(g, a, visited, done, open, queue, k)
    requires Reached(g, a, visited + {n.rid}, k, n) && Depth(n) == k + 1
    ensures Searching(g, a, visited + {n.rid}, done, open, queue + [n], k)
  {
    QueueReached(g, a, visited, queue, k, n);
    QueueCovers(g, a, visited, done + open, queue, n);
    forall i, j | 0 <= i < j < |queue + [n]| ensures Depth((queue + [n])[i]) <= Depth((queue + [n])[j]) {
      if j == |queue| {
        assert queue[i] in queue;
        assert Reached(g, a, visited, k, queue[i]);
      }
    }
  }

  lemma {:induction false} QueueReached(g: Graph, a: nat, visited: set<nat>, queue: seq<Node>, k: nat, n: Node)
    requires (forall m :: m in queue ==> Reached(g, a, visited, k, m)) && Reached(g, a, visited + {n.rid}, k, n)
    ensures forall m :: m in queue + [n] ==> Reached(g, a, visited + {n.rid}, k, m)
  {
    forall m | m in queue + [n] ensures Reached(g, a, visited + {n.rid}, k, m) {
      if m in queue {
        assert Reached(g, a, visited, k, m);
      }
    }
  }

  lemma {:induction false} QueueCovers(g: Graph, a: nat, visited: set<nat>, past: set<nat>, queue: seq<Node>, n: Node)
    requires forall v :: v in visited ==> (v in g.skip && v != a) || v in past || v in Waiting(queue)
    ensures forall v :: v in visited + {n.rid} ==> (v in g.skip && v != a) || v in past || v in Waiting(queue + [n])
  {
    forall v | v in visited + {n.rid} ensures (v in g.skip && v != a) || v in past || v in Waiting(queue + [n]) {
      if v in Waiting(queue) {
        var m :| m in queue && m.rid == v;
        assert m in queue + [n];
      }
      assert n in queue + [n];
    }
  }

  /** The front of the queue is taken out to be dealt with. */
  lemma {:induction false} TakeFront(g: Graph, a: nat, visited: set<nat>, done: set<nat>, queue: seq<Node>, k: nat)
    requires Searching(g, a, visited, done, {}, queue, k) && queue != []
    ensures var d := Depth(queue[0]); k <= d <= k + 1 && Searching(g, a, visited, done, {queue[0].rid}, queue[1..], d)
  {
    var d, rest := Depth(queue[0]), queue[1..];
    assert Reached(g, a, visited, k, queue[0]);
    if d > k {
      AllFurther(queue);
      Advance(g, a, visited, done, queue, k);
    }
    AllFurther(queue);
    forall n | n in rest ensures Reached(g, a, visited, d, n) {
      assert n in queue && Reached(g, a, visited, k, n);
    }
    forall v | v in visited ensures (v in g.skip && v != a) || v in done || v in {queue[0].rid} || v in Waiting(rest) {
      StillWaiting(queue, v);
    }
  }

  lemma {:induction false} AllFurther(queue: seq<Node>)
    requires queue != [] && forall i, j :: 0 <= i < j < |queue| ==> Depth(queue[i]) <= Depth(queue[j])
    ensures forall n :: n in queue ==> Depth(n) >= Depth(queue[0])
  {
    forall n | n in queue ensures Depth(n) >= Depth(queue[0]) {
      var i :| 0 <= i < |queue| && queue[i] == n;
    }
  }

  lemma {:induction false} StillWaiting(queue: seq<Node>, v: nat)
    requires queue != []
    ensures v in Waiting(queue) ==> v == queue[0].rid || v in Waiting(queue[1..])
  {
    if v in Waiting(queue) {
      var n :| n in queue && n.rid == v;
      assert queue == [queue[0]] + queue[1..];
    }
  }

  /** With its links followed, the open check-in is dealt with. */
  lemma {:induction false} Finish(
    g: Graph, a: nat, visited: set<nat>, done: set<nat>, rid: nat, queue: seq<Node>, k: nat)
    requires Searching(g, a, visited, done, {rid}, queue, k)
             && forall w {:trigger Joined(g, rid, w)} :: Joined(g, rid, w) ==> w in visited
    ensures Searching(g, a, visited, done + {rid}, {}, queue, k)
  {
  }

  /** With nothing queued, every walk ends at a visited check-in. */
  lemma {:induction false} Exhausted(g: Graph, a: nat, visited: set<nat>, done: set<nat>, k: nat, q: seq<nat>)
    requires Searching(g, a, visited, done, {}, [], k) && Walk(g, q) && q[0] == a
    ensures q[|q| - 1] in visited
    decreases |q|
  {
    if |q| > 1 {
      Shorten(g, q, a, q[|q| - 1]);
      var u := q[|q| - 2];
      Exhausted(g, a, visited, done, k, q[..|q| - 1]);
      assert |q| > 2 ==> u !in g.skip;
      assert u in done;
    }
  }

  lemma {:induction false} Start(g: Graph, a: nat)
    ensures Searching(g, a, {a} + g.skip, {}, {}, [Root(a)], 0)
  {
    assert Trail(Root(a)) == [a];
    assert Root(a) in [Root(a)];
  }

  /** The links of one check-in followed: the way to b if one leads there, or all they lead to queued. */
  method Expand(
    g: Graph, a: nat, b: nat, visited0: set<nat>, ghost done: set<nat>, cur: Node, queue0: seq<Node>, ghost k: nat)
    returns (found: Option<Node>, visited: set<nat>, queue: seq<Node>)
    requires Searching(g, a, visited0, done, {cur.rid}, queue0, k) && WalkTo(g, Trail(cur), a, cur.rid)
             && Depth(cur) == k
    requires b !in visited0 || b in g.skip
    ensures found.Some? ==> ShortestWalk(g, Trail(found.value), a, b)
    ensures found == None ==> Searching(g, a, visited, done + {cur.rid}, {}, queue, k) && (b !in visited || b in g.skip)
    ensures visited0 <= visited && (visited == visited0 ==> queue == queue0)
    ensures visited - visited0 <= Ids(g.plink)
  {
    visited, queue := visited0, queue0;
    var near := Neighbors(g, cur.rid);
    for i := 0 to |near|
      invariant Searching(g, a, visited, done, {cur.rid}, queue, k)
      invariant b !in visited || b in g.skip
      invariant visited0 <= visited && (visited == visited0 ==> queue == queue0)
      invariant visited - visited0 <= Ids(g.plink)
      invariant forall j :: 0 <= j < i ==> near[j] in visited
    {
      var rid := near[i];
      assert rid in near;
      if rid !in visited {
        var node := Via(rid, cur);
        Found(g, a, visited, k, cur, rid);
        QueueMore(g, a, visited, done, {cur.rid}, queue, k, node);
        visited := visited + {rid};
        if rid == b {
          return Some(node), visited, queue + [node];
        }
        queue := queue + [node];
      }
    }
    Finish(g, a, visited, done, cur.rid, queue, k);
    found := None;
  }

  lemma {:induction false} FewerLeft(ids: set<nat>, before: set<nat>, after: set<nat>)
    requires before <= after && after - before <= ids && before != after
    ensures |ids - after| < |ids - before|
  {
    assert before + (after - before) == after;
    var x :| x in after - before;
    assert x in ids - before && x !in ids - after;
    assert ids - after <= (ids - before) - {x};
    SubsetCard(ids - after, (ids - before) - {x});
  }

  /** The shortest way from a to b, or none exactly when there is none. */
  method Shortest(g: Graph, a: nat, b: nat) returns (r: Option<seq<nat>>)
    ensures r.Some? ==> ShortestWalk(g, r.value, a, b)
    ensures r == None ==> !exists q :: WalkTo(g, q, a, b)
  {
    if a == b {
      return Some([a]);
    }
    var visited, queue := {a} + g.skip, [Root(a)];
    ghost var done: set<nat>, k: nat := {}, 0;
    Start(g, a);
    while queue != []
      invariant Searching(g, a, visited, done, {}, queue, k)
      invariant b !in visited || b in g.skip
      decreases |Ids(g.plink) - visited|, |queue|
    {
      var cur := queue[0];
      assert Reached(g, a, visited, k, cur);
      TakeFront(g, a, visited, done, queue, k);
      k := Depth(cur);
      ghost var before := visited;
      var found;
      found, visited, queue := Expand(g, a, b, visited, done, cur, queue[1..], k);
      if found.Some? {
        var p := Reconstruct(found.value);
        return Some(p);
      }
      done := done + {cur.rid};
      if visited != before {
        FewerLeft(Ids(g.plink), before, visited);
      }
    }
    forall q ensures !WalkTo(g, q, a, b) {
      if Walk(g, q) && q[0] == a {
        Exhausted(g, a, visited, done, k, q);
        assert |q| > 1 ==> q[|q| - 1] !in g.skip;
      }
    }
    r := None;
  }

  /** The way to a node, from its links back to the start. */
  method Reconstruct(end: Node) returns (p: seq<nat>)
    ensures p == Trail(end)
  {
    p := [end.rid];
    var n := end;
    while n.Via?
      invariant p != [] && p[0] == n.rid
      invariant Trail(n) + p[1..] == Trail(end)
      decreases n
    {
      n := n.from;
      p := [n.rid] + p;
    }
  }
}
