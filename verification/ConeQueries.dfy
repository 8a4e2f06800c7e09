/** Asking a cone about a whole subtree or a range of paths, to prune an enumeration. */
module ConeQueries {
  import opened Basics
  import opened PathOrder
  import opened Cone
  import opened ConeBuild

  /** Some path at or under dir is covered. */
  ghost predicate CoversSomeUnder(c: Cone, dir: string) {
    exists p :: MemberCovers(dir, p) && Covers(c, p)
  }

  /**
   * The subtree answer is exact for a minimal cone: an inclusion inside the
   * subtree is itself a covered path.
   */
  method IntersectsSubtree(c: Cone, dir: string) returns (r: bool)
    requires Minimal(c) && dir != ""
    ensures r <==> CoversSomeUnder(c, dir)
  {
    assert MemberCovers(dir, dir);
    if c.includes == [] {
      assert Covers(c, dir);
      return true;
    }
    var d := Decide(c, dir);
    if d.covered {
      return true;
    }
    for i := 0 to |c.includes|
      invariant forall k :: 0 <= k < i ==> !MemberCovers(dir, c.includes[k])
    {
      if MemberCovers(dir, c.includes[i]) {
        InclusionCovered(c, c.includes[i]);
        return true;
      }
    }
    NoneInside(c, dir);
    return false;
  }

  lemma {:induction false} InclusionCovered(c: Cone, m: string)
    requires Minimal(c) && m in c.includes
    ensures Covers(c, m)
  {
    assert m in Elements(c.includes) && TurnsOn(Elements(c.includes), Elements(c.excludes), m);
  }

  /** What covers a path under an uncovered directory, if no inclusion lies inside it, covers the directory. */
  lemma {:induction false} NoneInside(c: Cone, dir: string)
    requires c.includes != [] && !Covers(c, dir) && forall k :: 0 <= k < |c.includes| ==>
               !MemberCovers(dir, c.includes[k])
    ensures !CoversSomeUnder(c, dir)
  {
    var I, X := Elements(c.includes), Elements(c.excludes);
    forall p | MemberCovers(dir, p) ensures !Covered(I, X, p) {
      if Covered(I, X, p) {
        var m :| m in I && MemberCovers(m, p) && OutranksAll(m, X, p);
        Nested(m, dir, p);
        Nested(dir, m, p);
        forall e | e in X && MemberCovers(e, dir) ensures |e| < |m| {
          CoversTransitive(e, dir, p);
        }
        assert OutranksAll(m, X, dir);
      }
    }
  }

  /** p lies at or after first, and before limit unless limit is empty. */
  predicate InRange(p: string, first: string, limit: string) {
    !Below(p, first) && (limit == "" || Below(p, limit))
  }

  /** Everything a member covers sorts before the member followed by '0', the character after '/'. */
  lemma {:induction false} CoveredBeforeZero(m: string, p: string)
    requires MemberCovers(m, p)
    ensures Below(p, m + "0")
  {
    if m != "" {
      assert p == [p[0]] + p[1..] && m == [m[0]] + m[1..];
      assert p[0] == m[0];
      assert m[1..] <= p[1..];
      CoveredBeforeZero(m[1..], p[1..]);
      assert (m + "0")[1..] == m[1..] + "0";
    }
  }

  /** A range answered false holds no covered path. */
  method MayCover(c: Cone, first: string, limit: string) returns (r: bool)
    ensures forall p :: InRange(p, first, limit) && Covers(c, p) ==> r
    ensures c.includes == [] ==> r
    ensures r && c.includes != [] ==>
              exists m :: m in c.includes && (limit == "" || Below(m, limit)) && Below(first, m + "0")
  {
    if c.includes == [] {
      return true;
    }
    for i := 0 to |c.includes|
      invariant forall k :: 0 <= k < i ==> OutOfRange(c.includes[k], first, limit)
    {
      if (limit != "" && !Below(c.includes[i], limit)) || !Below(first, c.includes[i] + "0") {
        continue;
      }
      assert c.includes[i] in c.includes;
      return true;
    }
    forall p | InRange(p, first, limit) ensures !Covers(c, p) {
      forall m | m in c.includes ensures !MemberCovers(m, p) {
        MissesRange(m, p, first, limit);
      }
    }
    return false;
  }

  /** Nothing an inclusion covers can lie in the range. */
  predicate OutOfRange(m: string, first: string, limit: string) {
    (limit != "" && !Below(m, limit)) || !Below(first, m + "0")
  }

  lemma {:induction false} MissesRange(m: string, p: string, first: string, limit: string)
    requires OutOfRange(m, first, limit) && InRange(p, first, limit)
    ensures !MemberCovers(m, p)
  {
    if MemberCovers(m, p) {
      CoveredBeforeZero(m, p);
      BelowTotal(first, p);
      if first != p {
        BelowTransitive(first, p, m + "0");
      }
      if limit != "" && m != p {
        PrefixBelow(m, p);
        BelowTransitive(m, p, limit);
      }
    }
  }
}
