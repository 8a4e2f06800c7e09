/** Cones: sets of path prefixes, each an inclusion or an exclusion, and their canonical form. */
module Cone {
  import opened Basics
  import opened PathOrder

  datatype Rule = Descendants | Leaves

  datatype Depth = ContentDepth | StructuralDepth

  datatype Horizon = Horizon(hash: string, rule: Rule, depth: Depth)

  datatype Cone = Cone(includes: seq<string>, excludes: seq<string>, horizon: Option<Horizon>)

  datatype Error = Bounds | InvalidMember | DeadExclusion | Contradiction | HorizonCheckout

  datatype Result<T> = Ok(value: T) | Err(error: Error)

  datatype Entry = Entry(path: string, exclude: bool)

  const MAX_MEMBERS: nat := 255
  const MAX_MEMBER_LEN: nat := 4096

  // ------------------------------------------------------------------ coverage

  /** member is path, or names a directory path lies in. */
  predicate MemberCovers(member: string, path: string) {
    member <= path && (|path| == |member| || path[|member|] == '/')
  }

  /** The longest of the members covering path is an inclusion. */
  ghost predicate Covered(I: set<string>, X: set<string>, path: string) {
    exists m :: m in I && MemberCovers(m, path) && OutranksAll(m, X, path)
  }

  ghost predicate OutranksAll(m: string, X: set<string>, path: string) {
    forall e :: e in X && MemberCovers(e, path) ==> |e| < |m|
  }

  /** What a cone covers: with no inclusions only its horizon narrows it, so every path. */
  ghost predicate Covers(c: Cone, path: string) {
    c.includes == [] || Covered(Elements(c.includes), Elements(c.excludes), path)
  }

  // -------------------------------------------------------- prefixes of one path

  lemma {:induction false} CoversTransitive(a: string, b: string, c: string)
    requires MemberCovers(a, b) && MemberCovers(b, c)
    ensures MemberCovers(a, c)
  {
  }

  /** Two members covering one path are nested. */
  lemma {:induction false} Nested(a: string, b: string, path: string)
    requires MemberCovers(a, path) && MemberCovers(b, path)
    ensures |a| <= |b| ==> MemberCovers(a, b)
    ensures |a| == |b| ==> a == b
  {
    if |a| <= |b| {
      assert a == path[..|a|] && b == path[..|b|];
      assert a == b[..|a|];
      assert |a| < |b| ==> path[|a|] == b[|a|];
    }
  }

  /** The directory holding path, "" at the top. */
  function Dir(path: string): (d: string)
    ensures |d| <= |path|
    ensures path != "" ==> |d| < |path|
  {
    if path == "" then ""
    else if path[|path| - 1] == '/' then path[..|path| - 1]
    else Dir(path[..|path| - 1])
  }

  /** The members covering the directory of path are those covering path, path itself aside. */
  lemma {:induction false} DirCovered(m: string, path: string)
    requires m != ""
    ensures MemberCovers(m, Dir(path)) <==> MemberCovers(m, path) && m != path
  {
    if path == "" {
    } else {
      var cut := path[..|path| - 1];
      assert |m| < |path| ==> (m <= path <==> m <= cut);
      if path[|path| - 1] == '/' {
        assert |m| < |cut| ==> cut[|m|] == path[|m|];
      } else {
        DirCovered(m, cut);
        assert |m| < |cut| ==> cut[|m|] == path[|m|];
      }
    }
  }

  // ------------------------------------------------------------ adding a member

  /** No member lies at or under e. */
  ghost predicate NoneUnder(e: string, members: set<string>) {
    forall m :: m in members ==> !MemberCovers(e, m)
  }

  /** Below e, the members covering a path are those covering e, and e. */
  lemma {:induction false} UnderSame(I: set<string>, X: set<string>, e: string, m: string, path: string)
    requires NoneUnder(e, I) && NoneUnder(e, X) && MemberCovers(e, path) && (m in I + X)
    ensures MemberCovers(m, path) <==> MemberCovers(m, e)
    ensures MemberCovers(m, path) ==> |m| < |e|
  {
    if MemberCovers(m, path) {
      Nested(m, e, path);
      Nested(e, m, path);
    }
    if MemberCovers(m, e) {
      CoversTransitive(m, e, path);
    }
  }

  /** Members only above e decide every path below e alike. */
  lemma {:induction false} UnderDecidedAlike(I: set<string>, X: set<string>, e: string, path: string)
    requires NoneUnder(e, I) && NoneUnder(e, X) && MemberCovers(e, path)
    ensures Covered(I, X, path) == Covered(I, X, e)
  {
    forall m | m in I + X ensures MemberCovers(m, path) <==> MemberCovers(m, e) {
      UnderSame(I, X, e, m, path);
    }
    forall m | m in I && MemberCovers(m, path)
      ensures OutranksAll(m, X, path) <==> OutranksAll(m, X, e)
    {
    }
  }

  lemma {:induction false} AddInclusion(I: set<string>, X: set<string>, e: string, path: string)
    requires NoneUnder(e, I) && NoneUnder(e, X)
    ensures Covered(I + {e}, X, path) == (MemberCovers(e, path) || Covered(I, X, path))
  {
    if MemberCovers(e, path) {
      forall x | x in X && MemberCovers(x, path) ensures |x| < |e| {
        UnderSame(I, X, e, x, path);
      }
      assert e in I + {e} && OutranksAll(e, X, path);
    } else if Covered(I, X, path) {
      var m :| m in I && MemberCovers(m, path) && OutranksAll(m, X, path);
      assert m in I + {e};
    }
  }

  lemma {:induction false} AddExclusion(I: set<string>, X: set<string>, e: string, path: string)
    requires NoneUnder(e, I) && NoneUnder(e, X)
    ensures Covered(I, X + {e}, path) == (!MemberCovers(e, path) && Covered(I, X, path))
  {
    if MemberCovers(e, path) {
      forall m | m in I && MemberCovers(m, path) ensures !OutranksAll(m, X + {e}, path) {
        UnderSame(I, X, e, m, path);
        assert e in X + {e};
      }
    } else {
      forall m | m in I ensures OutranksAll(m, X + {e}, path) <==> OutranksAll(m, X, path) {
        if OutranksAll(m, X + {e}, path) {
          assert forall x :: x in X ==> x in X + {e};
        }
      }
    }
  }

  // --------------------------------------------------------------- normal cones

  /** Coverage begins at path. */
  ghost predicate TurnsOn(I: set<string>, X: set<string>, path: string) {
    Covered(I, X, path) && !Covered(I, X, Dir(path))
  }

  /** Coverage ends at path. */
  ghost predicate TurnsOff(I: set<string>, X: set<string>, path: string) {
    !Covered(I, X, path) && Covered(I, X, Dir(path))
  }

  /** Every member changes what its directory has decided. */
  ghost predicate Turning(I: set<string>, X: set<string>) {
    && "" !in I && "" !in X
    && (forall m {:trigger TurnsOn(I, X, m)} :: m in I ==> TurnsOn(I, X, m))
    && (forall m {:trigger TurnsOff(I, X, m)} :: m in X ==> TurnsOff(I, X, m))
  }

  ghost predicate Minimal(c: Cone) {
    && Ascending(c.includes) && Ascending(c.excludes)
    && Turning(Elements(c.includes), Elements(c.excludes))
  }

  /** A cone as built: minimal, every member valid, within bounds. */
  ghost predicate Normal(c: Cone, valid: string -> bool) {
    && Minimal(c)
    && (c.includes == [] ==> c.horizon.Some?)
    && |c.includes| + |c.excludes| <= MAX_MEMBERS
    && (forall m :: m in c.includes || m in c.excludes ==> Admitted(m, valid))
  }

  predicate Admitted(m: string, valid: string -> bool) {
    |m| <= MAX_MEMBER_LEN && m != "" && valid(m)
  }

  /** Off the members, a path is decided as its directory is. */
  lemma {:induction false} DecidedByDir(I: set<string>, X: set<string>, path: string)
    requires "" !in I && "" !in X && path !in I && path !in X
    ensures Covered(I, X, path) == Covered(I, X, Dir(path))
  {
    forall m | m in I + X ensures MemberCovers(m, path) <==> MemberCovers(m, Dir(path)) {
      DirCovered(m, path);
    }
    forall m | m in I ensures OutranksAll(m, X, path) <==> OutranksAll(m, X, Dir(path)) {
    }
  }

  /** The members are exactly where coverage changes on the way down. */
  lemma {:induction false} MembersAreTurns(I: set<string>, X: set<string>, path: string)
    requires Turning(I, X)
    ensures path in I <==> TurnsOn(I, X, path)
    ensures path in X <==> TurnsOff(I, X, path)
  {
    if path !in I && path !in X {
      DecidedByDir(I, X, path);
    }
  }

  lemma {:induction false} SameTurns(I: set<string>, X: set<string>, J: set<string>, Y: set<string>, path: string)
    requires Turning(I, X) && Turning(J, Y)
    requires Covered(I, X, path) == Covered(J, Y, path) && Covered(I, X, Dir(path)) == Covered(J, Y, Dir(path))
    ensures (path in I <==> path in J) && (path in X <==> path in Y)
  {
    MembersAreTurns(I, X, path);
    MembersAreTurns(J, Y, path);
  }

  ghost predicate SameCovered(I: set<string>, X: set<string>, J: set<string>, Y: set<string>) {
    forall p :: Covered(I, X, p) == Covered(J, Y, p)
  }

  lemma {:induction false} SameMembers(I: set<string>, X: set<string>, J: set<string>, Y: set<string>)
    requires Turning(I, X) && Turning(J, Y) && SameCovered(I, X, J, Y)
    ensures I == J && X == Y
  {
    forall p ensures (p in I <==> p in J) && (p in X <==> p in Y) {
      SameTurns(I, X, J, Y, p);
    }
  }

  lemma {:induction false} SameElements(a: seq<string>, b: seq<string>)
    requires Ascending(a) && Ascending(b) && Elements(a) == Elements(b)
    ensures a == b
  {
    forall p ensures p in a <==> p in b {
      assert p in Elements(a) <==> p in Elements(b);
    }
    AscendingUnique(a, b);
  }

  /** A slash-free name longer than every member. */
  ghost function LongName(members: seq<string>): (p: string)
    ensures p != "" && '/' !in p
    ensures forall m :: m in members ==> |m| < |p|
  {
    if members == [] then "a"
    else
      var rest := LongName(members[1..]);
      assert members == [members[0]] + members[1..];
      rest + seq(|members[0]|, _ => 'a')
  }

  /** Some path escapes any list of members. */
  lemma {:induction false} SomethingUncovered(I: seq<string>, X: set<string>)
    requires "" !in I
    ensures !Covered(Elements(I), X, LongName(I))
  {
    forall m | m in I ensures !MemberCovers(m, LongName(I)) {
      assert LongName(I)[|m|] in LongName(I);
    }
  }

  /**
   * Canonical form: two cones covering the same paths list the same members,
   * so they serialize alike.
   */
  lemma {:induction false} Canonical(a: Cone, b: Cone, valid: string -> bool)
    requires Normal(a, valid) && Normal(b, valid)
    requires forall p :: Covers(a, p) == Covers(b, p)
    ensures a.includes == b.includes && a.excludes == b.excludes
  {
    SomethingUncovered(a.includes, Elements(a.excludes));
    SomethingUncovered(b.includes, Elements(b.excludes));
    assert Covers(a, LongName(a.includes)) == Covers(b, LongName(a.includes));
    assert Covers(a, LongName(b.includes)) == Covers(b, LongName(b.includes));
    if a.includes == [] {
      NoInclusionNoExclusion(a);
      NoInclusionNoExclusion(b);
    } else {
      forall p
        ensures Covered(Elements(a.includes), Elements(a.excludes), p) ==
                Covered(Elements(b.includes), Elements(b.excludes), p)
      {
        assert Covers(a, p) == Covers(b, p);
      }
      SameMembers(Elements(a.includes), Elements(a.excludes), Elements(b.includes), Elements(b.excludes));
      SameElements(a.includes, b.includes);
      SameElements(a.excludes, b.excludes);
    }
  }

  lemma {:induction false} NoInclusionNoExclusion(c: Cone)
    requires Minimal(c)
    ensures c.includes == [] ==> c.excludes == []
  {
    assert c.excludes != [] ==>
             c.excludes[0] in Elements(c.excludes)
             && TurnsOff(Elements(c.includes), Elements(c.excludes), c.excludes[0]);
  }
}
