/** Building a cone from operator input, and asking one what covers a path. */
module ConeBuild {
  import opened Basics
  import opened PathOrder
  import opened Cone

  // ------------------------------------------------------------ longest match

  /** member is the longest of these covering path, an exclusion if excludes; "" when none covers it. */
  ghost predicate Nearest(I: set<string>, X: set<string>, path: string, member: string, excludes: bool) {
    && (forall m :: m in I && MemberCovers(m, path) ==> |m| <= |member|)
    && (forall m :: m in X && MemberCovers(m, path) ==> |m| <= |member|)
    && (member == "" ==> !excludes)
    && (member != "" ==> MemberCovers(member, path) && (if excludes then member in X else member in I))
  }

  method LongestOf(members: seq<string>, path: string, start: string) returns (member: string)
    ensures |member| >= |start|
    ensures member == start || (member in members && MemberCovers(member, path) && |member| > |start|)
    ensures forall m :: m in members && MemberCovers(m, path) ==> |m| <= |member|
  {
    member := start;
    for i := 0 to |members|
      invariant |member| >= |start|
      invariant member == start || (member in members && MemberCovers(member, path) && |member| > |start|)
      invariant forall m :: m in members[..i] && MemberCovers(m, path) ==> |m| <= |member|
    {
      assert members[..i + 1] == members[..i] + [members[i]];
      if |members[i]| > |member| && MemberCovers(members[i], path) {
        member := members[i];
      }
    }
    assert members[..|members|] == members;
  }

  method LongestCovering(includes: seq<string>, excludes: seq<string>, path: string, exclusions: bool)
    returns (member: string, excluded: bool)
    ensures Nearest(Elements(includes), if exclusions then Elements(excludes) else {}, path, member, excluded)
  {
    member := LongestOf(includes, path, "");
    excluded := false;
    if exclusions {
      var longer := LongestOf(excludes, path, member);
      excluded := longer != member;
      member := longer;
    }
  }

  /** The longest covering member's polarity is the verdict. */
  lemma {:induction false} NearestDecides(I: set<string>, X: set<string>, path: string, member: string, excludes: bool)
    requires Nearest(I, X, path, member, excludes) && I !! X && "" !in I && "" !in X
    ensures Covered(I, X, path) <==> member != "" && !excludes
  {
    if member == "" {
    } else if excludes {
      forall m | m in I && MemberCovers(m, path) ensures !OutranksAll(m, X, path) {
      }
    } else {
      forall x | x in X && MemberCovers(x, path) ensures |x| < |member| {
        Nested(x, member, path);
      }
      assert OutranksAll(member, X, path);
    }
  }

  datatype Decision = Decision(covered: bool, member: string)

  /** The verdict on a path, and the longest member covering it that gave the verdict. */
  method Decide(c: Cone, path: string) returns (d: Decision)
    requires Minimal(c)
    ensures d.covered == Covers(c, path)
    ensures c.includes != [] ==>
              Nearest(Elements(c.includes), Elements(c.excludes), path, d.member, d.member != "" && !d.covered)
    ensures c.includes == [] ==> d.member == ""
  {
    if c.includes == [] {
      return Decision(true, "");
    }
    var member, excluded := LongestCovering(c.includes, c.excludes, path, true);
    TurningDisjoint(Elements(c.includes), Elements(c.excludes));
    NearestDecides(Elements(c.includes), Elements(c.excludes), path, member, excluded);
    d := if member == "" then Decision(false, "") else Decision(!excluded, member);
  }

  lemma {:induction false} TurningDisjoint(I: set<string>, X: set<string>)
    requires Turning(I, X)
    ensures I !! X
  {
    forall m ensures !(m in I && m in X) {
      MembersAreTurns(I, X, m);
    }
  }

  // -------------------------------------------------------------- normalization

  function PathOf(e: Entry): string {
    e.path
  }

  ghost function Given(es: seq<Entry>, exclude: bool): set<string> {
    set e | e in es && e.exclude == exclude :: e.path
  }

  /** One path is given with both polarities. */
  ghost predicate Contradictory(I: set<string>, X: set<string>) {
    exists p :: p in I && p in X
  }

  ghost predicate Alive(I: set<string>, x: string) {
    exists m :: m in I && MemberCovers(m, x)
  }

  /** Some exclusion lies under no inclusion. */
  ghost predicate SomeDead(I: set<string>, X: set<string>) {
    exists x :: x in X && !Alive(I, x)
  }

  lemma {:induction false} InclusionLeaves(I: set<string>, X: set<string>, e: string, m: string)
    requires NoneUnder(e, I) && NoneUnder(e, X) && e != "" && (m in I || m in X)
    ensures TurnsOn(I + {e}, X, m) == TurnsOn(I, X, m)
    ensures TurnsOff(I + {e}, X, m) == TurnsOff(I, X, m)
  {
    DirCovered(e, m);
    AddInclusion(I, X, e, m);
    AddInclusion(I, X, e, Dir(m));
  }

  lemma {:induction false} InclusionTurns(I: set<string>, X: set<string>, e: string)
    requires Turning(I, X) && NoneUnder(e, I) && NoneUnder(e, X) && e != "" && !Covered(I, X, e)
    ensures TurnsOn(I + {e}, X, e)
  {
    OffMember(I, X, e);
    DirCovered(e, e);
    AddInclusion(I, X, e, e);
    AddInclusion(I, X, e, Dir(e));
  }

  lemma {:induction false} TurningInclusion(I: set<string>, X: set<string>, e: string)
    requires Turning(I, X) && NoneUnder(e, I) && NoneUnder(e, X) && e != "" && !Covered(I, X, e)
    ensures Turning(I + {e}, X)
  {
    InclusionTurns(I, X, e);
    forall m {:trigger TurnsOn(I + {e}, X, m)} | m in I ensures TurnsOn(I + {e}, X, m) {
      InclusionLeaves(I, X, e, m);
    }
    forall m {:trigger TurnsOff(I + {e}, X, m)} | m in X ensures TurnsOff(I + {e}, X, m) {
      InclusionLeaves(I, X, e, m);
    }
  }

  lemma {:induction false} ExclusionLeaves(I: set<string>, X: set<string>, e: string, m: string)
    requires NoneUnder(e, I) && NoneUnder(e, X) && e != "" && (m in I || m in X)
    ensures TurnsOn(I, X + {e}, m) == TurnsOn(I, X, m)
    ensures TurnsOff(I, X + {e}, m) == TurnsOff(I, X, m)
  {
    DirCovered(e, m);
    AddExclusion(I, X, e, m);
    AddExclusion(I, X, e, Dir(m));
  }

  lemma {:induction false} ExclusionTurns(I: set<string>, X: set<string>, e: string)
    requires Turning(I, X) && NoneUnder(e, I) && NoneUnder(e, X) && e != "" && Covered(I, X, e)
    ensures TurnsOff(I, X + {e}, e)
  {
    OffMember(I, X, e);
    DirCovered(e, e);
    AddExclusion(I, X, e, e);
    AddExclusion(I, X, e, Dir(e));
  }

  lemma {:induction false} TurningExclusion(I: set<string>, X: set<string>, e: string)
    requires Turning(I, X) && NoneUnder(e, I) && NoneUnder(e, X) && e != "" && Covered(I, X, e)
    ensures Turning(I, X + {e})
  {
    ExclusionTurns(I, X, e);
    forall m {:trigger TurnsOn(I, X + {e}, m)} | m in I ensures TurnsOn(I, X + {e}, m) {
      ExclusionLeaves(I, X, e, m);
    }
    forall m {:trigger TurnsOff(I, X + {e}, m)} | m in X ensures TurnsOff(I, X + {e}, m) {
      ExclusionLeaves(I, X, e, m);
    }
  }

  lemma {:induction false} OffMember(I: set<string>, X: set<string>, e: string)
    requires NoneUnder(e, I) && NoneUnder(e, X) && "" !in I && "" !in X
    ensures Covered(I, X, e) == Covered(I, X, Dir(e))
  {
    assert MemberCovers(e, e);
    DecidedByDir(I, X, e);
  }

  /** What normalization has made of the entries read: the members given (J, Y) and those kept (I, X). */
  ghost predicate Condensed(I: set<string>, X: set<string>, J: set<string>, Y: set<string>) {
    && I <= J && X <= Y && J !! Y
    && Turning(I, X)
    && SameCovered(I, X, J, Y)
    && (forall m {:trigger Alive(I, m)} :: m in J ==> Alive(I, m))
    && (forall x {:trigger Alive(I, x)} :: x in Y ==> Alive(I, x))
  }

  /** A member decided as its nearest kept one is dropped without changing coverage. */
  lemma {:induction false} DropInclusion(I: set<string>, X: set<string>, J: set<string>, Y: set<string>, e: string)
    requires Condensed(I, X, J, Y) && NoneUnder(e, J) && NoneUnder(e, Y) && e != "" && Covered(I, X, e)
    ensures Condensed(I, X, J + {e}, Y)
  {
    forall p ensures Covered(I, X, p) == Covered(J + {e}, Y, p) {
      AddInclusion(J, Y, e, p);
      if MemberCovers(e, p) {
        UnderDecidedAlike(I, X, e, p);
      }
    }
    assert MemberCovers(e, e);
  }

  lemma {:induction false} DropExclusion(I: set<string>, X: set<string>, J: set<string>, Y: set<string>, e: string)
    requires Condensed(I, X, J, Y) && NoneUnder(e, J) && NoneUnder(e, Y) && e != "" && !Covered(I, X, e) && Alive(I, e)
    ensures Condensed(I, X, J, Y + {e})
  {
    forall p ensures Covered(I, X, p) == Covered(J, Y + {e}, p) {
      AddExclusion(J, Y, e, p);
      if MemberCovers(e, p) {
        UnderDecidedAlike(I, X, e, p);
      }
    }
    assert MemberCovers(e, e);
  }

  lemma {:induction false} KeepInclusion(I: set<string>, X: set<string>, J: set<string>, Y: set<string>, e: string)
    requires Condensed(I, X, J, Y) && NoneUnder(e, J) && NoneUnder(e, Y) && e != "" && !Covered(I, X, e)
    ensures Condensed(I + {e}, X, J + {e}, Y)
  {
    forall p ensures Covered(I + {e}, X, p) == Covered(J + {e}, Y, p) {
      AddInclusion(I, X, e, p);
      AddInclusion(J, Y, e, p);
    }
    TurningInclusion(I, X, e);
    assert MemberCovers(e, e);
    forall m | m in J + {e} || m in Y ensures Alive(I + {e}, m) {
      if m != e {
        StillAlive(I, e, m);
      }
    }
  }

  lemma {:induction false} StillAlive(I: set<string>, e: string, m: string)
    requires Alive(I, m)
    ensures Alive(I + {e}, m)
  {
    var k :| k in I && MemberCovers(k, m);
    assert k in I + {e};
  }

  lemma {:induction false} KeepExclusion(I: set<string>, X: set<string>, J: set<string>, Y: set<string>, e: string)
    requires Condensed(I, X, J, Y) && NoneUnder(e, J) && NoneUnder(e, Y) && e != "" && Covered(I, X, e)
    ensures Condensed(I, X + {e}, J, Y + {e})
  {
    forall p ensures Covered(I, X + {e}, p) == Covered(J, Y + {e}, p) {
      AddExclusion(I, X, e, p);
      AddExclusion(J, Y, e, p);
    }
    TurningExclusion(I, X, e);
    assert MemberCovers(e, e);
  }

  /** In sorted entries, a path first met at i sorts after every earlier one, so none of those lies under it. */
  lemma {:induction false} FreshAfter(es: seq<Entry>, i: nat)
    requires SortedBy(es, PathOf) && i < |es| && (i > 0 ==> es[i - 1].path != es[i].path)
    ensures forall k {:trigger es[k]} :: 0 <= k < i ==> Below(es[k].path, es[i].path)
    ensures forall exclude :: NoneUnder(es[i].path, Given(es[..i], exclude))
  {
    forall k | 0 <= k < i ensures Below(es[k].path, es[i].path) && !MemberCovers(es[i].path, es[k].path) {
      SortedBelow(es, k, i);
    }
  }

  lemma {:induction false} SortedBelow(es: seq<Entry>, k: nat, i: nat)
    requires SortedBy(es, PathOf) && k < i < |es| && es[i - 1].path != es[i].path
    ensures Below(es[k].path, es[i].path) && !MemberCovers(es[i].path, es[k].path)
  {
    assert !Below(PathOf(es[i]), PathOf(es[i - 1]));
    BelowTotal(es[i - 1].path, es[i].path);
    assert Below(es[i - 1].path, es[i].path);
    BelowTotal(es[k].path, es[i].path);
    assert !Below(PathOf(es[i]), PathOf(es[k]));
    assert k < i - 1 ==> !Below(PathOf(es[i - 1]), PathOf(es[k]));
    if MemberCovers(es[i].path, es[k].path) {
      NotBelowSelf(es[k].path);
      PrefixBelow(es[i].path, es[k].path);
    }
  }

  /** What a later entry covers sorts at or after it. */
  lemma {:induction false} NoLaterCovers(es: seq<Entry>, i: nat, j: nat)
    requires SortedBy(es, PathOf) && i <= j < |es| && MemberCovers(es[j].path, es[i].path)
    ensures es[j].path == es[i].path
  {
    assert i < j ==> !Below(PathOf(es[j]), PathOf(es[i]));
    if es[j].path != es[i].path {
      PrefixBelow(es[j].path, es[i].path);
    }
  }

  lemma {:induction false} GivenMore(es: seq<Entry>, i: nat)
    requires i < |es|
    ensures Given(es[..i + 1], es[i].exclude) == Given(es[..i], es[i].exclude) + {es[i].path}
    ensures Given(es[..i + 1], !es[i].exclude) == Given(es[..i], !es[i].exclude)
  {
    assert es[..i + 1] == es[..i] + [es[i]];
  }

  /** An exclusion no kept member covers is dead among all the entries. */
  lemma {:induction false} DeadForGood(es: seq<Entry>, i: nat, I: set<string>, X: set<string>)
    requires SortedBy(es, PathOf) && i < |es| && es[i].exclude
    requires Condensed(I, X, Given(es[..i], false), Given(es[..i], true))
    requires !Alive(I, es[i].path)
    ensures Contradictory(Given(es, false), Given(es, true)) || SomeDead(Given(es, false), Given(es, true))
  {
    var x := es[i].path;
    assert es[i] in es && x in Given(es, true);
    if Alive(Given(es, false), x) {
      var m :| m in Given(es, false) && MemberCovers(m, x);
      var e :| e in es && !e.exclude && e.path == m;
      var j :| 0 <= j < |es| && es[j] == e;
      if j < i {
        assert es[j] in es[..i];
        assert Alive(I, m);
        var k :| k in I && MemberCovers(k, m);
        CoversTransitive(k, m, x);
      } else {
        NoLaterCovers(es, i, j);
      }
    }
  }

  ghost predicate Below1(list: seq<string>, p: string) {
    forall k :: 0 <= k < |list| ==> Below(list[k], p)
  }

  lemma {:induction false} AppendAscending(list: seq<string>, p: string)
    requires Ascending(list) && Below1(list, p)
    ensures Ascending(list + [p]) && Elements(list + [p]) == Elements(list) + {p}
  {
  }

  lemma {:induction false} KeptBelow(es: seq<Entry>, i: nat, exclude: bool, list: seq<string>)
    requires SortedBy(es, PathOf) && i < |es| && (i > 0 ==> es[i - 1].path != es[i].path)
    requires Elements(list) <= Given(es[..i], exclude)
    ensures Below1(list, es[i].path)
  {
    FreshAfter(es, i);
    forall k | 0 <= k < |list| ensures Below(list[k], es[i].path) {
      assert list[k] in Elements(list);
      var e :| e in es[..i] && e.path == list[k];
      var j :| 0 <= j < i && es[j] == e;
    }
  }

  /** One entry, not a repeat, read after those condensed into the lists. */
  method Admit(ghost es: seq<Entry>, ghost i: nat, e: Entry, includes: seq<string>, excludes: seq<string>)
    returns (r: Result<(seq<string>, seq<string>)>)
    requires SortedBy(es, PathOf) && i < |es| && es[i] == e && (i > 0 ==> es[i - 1].path != e.path) && e.path != ""
    requires Ascending(includes) && Ascending(excludes)
    requires Condensed(Elements(includes), Elements(excludes), Given(es[..i], false), Given(es[..i], true))
    ensures r.Ok? ==> Ascending(r.value.0) && Ascending(r.value.1)
    ensures r.Ok? ==>
              Condensed(Elements(r.value.0), Elements(r.value.1), Given(es[..i + 1], false), Given(es[..i + 1], true))
    ensures r.Err? ==> r.error == DeadExclusion && e.exclude && !Alive(Elements(includes), e.path)
  {
    var nearest, nearestExcludes := LongestCovering(includes, excludes, e.path, true);
    ghost var I, X, J, Y := Elements(includes), Elements(excludes), Given(es[..i], false), Given(es[..i], true);
    TurningDisjoint(I, X);
    NearestDecides(I, X, e.path, nearest, nearestExcludes);
    FreshAfter(es, i);
    GivenMore(es, i);
    NearestAlive(I, X, J, Y, e.path, nearest, nearestExcludes);
    if nearest == "" && e.exclude {
      return Err(DeadExclusion);
    }
    if nearest != "" && nearestExcludes == e.exclude {
      if e.exclude {
        DropExclusion(I, X, J, Y, e.path);
      } else {
        DropInclusion(I, X, J, Y, e.path);
      }
      return Ok((includes, excludes));
    }
    if e.exclude {
      KeptBelow(es, i, true, excludes);
      AppendAscending(excludes, e.path);
      KeepExclusion(I, X, J, Y, e.path);
      return Ok((includes, excludes + [e.path]));
    } else {
      KeptBelow(es, i, false, includes);
      AppendAscending(includes, e.path);
      KeepInclusion(I, X, J, Y, e.path);
      return Ok((includes + [e.path], excludes));
    }
  }

  lemma {:induction false} NearestAlive(
    I: set<string>, X: set<string>, J: set<string>, Y: set<string>, e: string, nearest: string, excludes: bool)
    requires Condensed(I, X, J, Y) && Nearest(I, X, e, nearest, excludes)
    ensures Alive(I, e) <==> nearest != ""
  {
    if nearest != "" && excludes {
      assert nearest in Y && Alive(I, nearest);
      var k :| k in I && MemberCovers(k, nearest);
      CoversTransitive(k, nearest, e);
    }
  }

  /**
   * Entries sorted by path are condensed to a minimal cone with their coverage,
   * unless one path has both polarities or an exclusion lies under no inclusion.
   */
  method Normalize(es: seq<Entry>) returns (r: Result<Cone>)
    requires SortedBy(es, PathOf) && forall e :: e in es ==> e.path != ""
    ensures r.Ok? <==> !Contradictory(Given(es, false), Given(es, true)) && !SomeDead(Given(es, false), Given(es, true))
    ensures r.Ok? ==> r.value.horizon == None && Minimal(r.value)
    ensures r.Ok? ==>
              Condensed(Elements(r.value.includes), Elements(r.value.excludes), Given(es, false), Given(es, true))
    ensures r.Err? ==> r.error == Contradiction || r.error == DeadExclusion
  {
    var includes: seq<string>, excludes: seq<string> := [], [];
    for i := 0 to |es|
      invariant Ascending(includes) && Ascending(excludes)
      invariant Condensed(Elements(includes), Elements(excludes), Given(es[..i], false), Given(es[..i], true))
    {
      GivenMore(es, i);
      if i > 0 && es[i - 1].path == es[i].path {
        assert es[i - 1] in es[..i] && es[i - 1] in es && es[i] in es;
        if es[i - 1].exclude != es[i].exclude {
          assert es[i].path in Given(es, false) && es[i].path in Given(es, true);
          return Err(Contradiction);
        }
        assert es[i].path in Given(es[..i], es[i].exclude);
        assert Given(es[..i + 1], es[i].exclude) == Given(es[..i], es[i].exclude);
        continue;
      }
      var step := Admit(es, i, es[i], includes, excludes);
      if step.Err? {
        DeadForGood(es, i, Elements(includes), Elements(excludes));
        return Err(step.error);
      }
      includes, excludes := step.value.0, step.value.1;
    }
    assert es[..|es|] == es;
    AllAlive(Elements(includes), Elements(excludes), Given(es, false), Given(es, true));
    r := Ok(Cone(includes, excludes, None));
  }

  lemma {:induction false} AllAlive(I: set<string>, X: set<string>, J: set<string>, Y: set<string>)
    requires Condensed(I, X, J, Y)
    ensures !Contradictory(J, Y) && !SomeDead(J, Y)
  {
    forall x | x in Y ensures Alive(J, x) {
      assert Alive(I, x);
      var m :| m in I && MemberCovers(m, x);
      assert m in J;
    }
  }

  // ----------------------------------------------------------------------- build

  ghost predicate InBounds(includes: seq<string>, excludes: seq<string>, h: Option<Horizon>) {
    (includes != [] || h.Some?) && |includes| + |excludes| <= MAX_MEMBERS
  }

  ghost predicate AllAdmitted(members: seq<string>, valid: string -> bool) {
    forall m :: m in members ==> Admitted(m, valid)
  }

  /** The lists a cone can be built from. */
  ghost predicate Buildable(includes: seq<string>, excludes: seq<string>, h: Option<Horizon>, valid: string -> bool) {
    && InBounds(includes, excludes, h)
    && AllAdmitted(includes, valid) && AllAdmitted(excludes, valid)
    && !Contradictory(Elements(includes), Elements(excludes)) && !SomeDead(Elements(includes), Elements(excludes))
  }

  method CollectEntries(members: seq<string>, exclude: bool, valid: string -> bool, sofar: seq<Entry>)
    returns (r: Result<seq<Entry>>)
    ensures r.Ok? <==> AllAdmitted(members, valid)
    ensures r.Err? ==> r.error == InvalidMember
    ensures r.Ok? ==> |r.value| == |sofar| + |members| && r.value[..|sofar|] == sofar
    ensures r.Ok? ==> forall k :: 0 <= k < |members| ==> r.value[|sofar| + k] == Entry(members[k], exclude)
  {
    var entries := sofar;
    for i := 0 to |members|
      invariant |entries| == |sofar| + i && entries[..|sofar|] == sofar
      invariant forall k :: 0 <= k < i ==> entries[|sofar| + k] == Entry(members[k], exclude)
      invariant forall k :: 0 <= k < i ==> Admitted(members[k], valid)
    {
      if !Admitted(members[i], valid) {
        assert members[i] in members;
        return Err(InvalidMember);
      }
      entries := entries + [Entry(members[i], exclude)];
    }
    r := Ok(entries);
  }

  /** The entries as listed: inclusions, then exclusions. */
  ghost predicate Listed(es: seq<Entry>, includes: seq<string>, excludes: seq<string>) {
    && |es| == |includes| + |excludes|
    && (forall k {:trigger es[k]} :: 0 <= k < |includes| ==> es[k] == Entry(includes[k], false))
    && (forall k {:trigger excludes[k]} :: 0 <= k < |excludes| ==> es[|includes| + k] == Entry(excludes[k], true))
  }

  lemma {:induction false} ListedGiven(es: seq<Entry>, includes: seq<string>, excludes: seq<string>)
    requires Listed(es, includes, excludes)
    ensures Given(es, false) == Elements(includes)
    ensures Given(es, true) == Elements(excludes)
  {
    forall p ensures p in Given(es, false) <==> p in includes {
      if p in includes {
        var k :| 0 <= k < |includes| && includes[k] == p;
        assert es[k] in es;
      }
      if p in Given(es, false) {
        var e :| e in es && !e.exclude && e.path == p;
        var k :| 0 <= k < |es| && es[k] == e;
        assert k >= |includes| ==> es[k] == Entry(excludes[k - |includes|], true);
      }
    }
    forall p ensures p in Given(es, true) <==> p in excludes {
      if p in excludes {
        var k :| 0 <= k < |excludes| && excludes[k] == p;
        assert es[|includes| + k] in es;
      }
      if p in Given(es, true) {
        var e :| e in es && e.exclude && e.path == p;
        var k :| 0 <= k < |es| && es[k] == e;
        assert k >= |includes| ==> es[k] == Entry(excludes[k - |includes|], true);
      }
    }
  }

  lemma {:induction false} SortedGiven(es: seq<Entry>, exclude: bool)
    ensures Given(Sort(es, PathOf), exclude) == Given(es, exclude)
  {
    forall e ensures e in Sort(es, PathOf) <==> e in es {
      SortElements(es, PathOf, e);
    }
  }

  /**
   * A cone is built exactly from buildable lists, and covers what their longest
   * matches cover, whatever order and repeats they were given in.
   */
  method Build(includes: seq<string>, excludes: seq<string>, h: Option<Horizon>, valid: string -> bool)
    returns (r: Result<Cone>)
    ensures r.Ok? <==> Buildable(includes, excludes, h, valid)
    ensures r.Ok? ==> Normal(r.value, valid) && r.value.horizon == h
    ensures r.Ok? ==>
              forall p :: Covers(r.value, p) == (includes == [] || Covered(Elements(includes), Elements(excludes), p))
    ensures r.Ok? ==> (r.value.includes == [] <==> includes == [])
    ensures r == Err(Bounds) <==> !InBounds(includes, excludes, h)
    ensures r == Err(InvalidMember) <==>
              InBounds(includes, excludes, h) && !(AllAdmitted(includes, valid) && AllAdmitted(excludes, valid))
  {
    if (|includes| == 0 && h == None) || |includes| + |excludes| > MAX_MEMBERS {
      return Err(Bounds);
    }
    var some := CollectEntries(includes, false, valid, []);
    if some.Err? {
      return Err(InvalidMember);
    }
    var all := CollectEntries(excludes, true, valid, some.value);
    if all.Err? {
      return Err(InvalidMember);
    }
    var entries := all.value;
    assert forall k {:trigger entries[k]} :: 0 <= k < |includes| ==> entries[k] == entries[..|includes|][k];
    ListedGiven(entries, includes, excludes);
    SortedGiven(entries, false);
    SortedGiven(entries, true);
    SortSorted(entries, PathOf);
    var sorted := Sort(entries, PathOf);
    ListedNonEmpty(entries, includes, excludes, valid);
    var normal := Normalize(sorted);
    if normal.Err? {
      return Err(normal.error);
    }
    KeptNormal(normal.value, includes, excludes, h, valid);
    r := Ok(normal.value.(horizon := h));
  }

  lemma {:induction false} ListedNonEmpty(
    es: seq<Entry>, includes: seq<string>, excludes: seq<string>, valid: string -> bool)
    requires Listed(es, includes, excludes) && AllAdmitted(includes, valid) && AllAdmitted(excludes, valid)
    ensures forall e :: e in Sort(es, PathOf) ==> e.path != ""
  {
    forall e | e in Sort(es, PathOf) ensures e.path != "" {
      SortElements(es, PathOf, e);
      var k :| 0 <= k < |es| && es[k] == e;
      assert k < |includes| ==> includes[k] in includes;
      assert k >= |includes| ==> excludes[k - |includes|] in excludes;
      assert k >= |includes| ==> es[k] == Entry(excludes[k - |includes|], true);
    }
  }

  /** Strictly ascending lists drawn from longer ones are no longer. */
  lemma {:induction false} AscendingShorter(a: seq<string>, b: seq<string>)
    requires Ascending(a) && Elements(a) <= Elements(b)
    ensures |a| <= |b|
  {
    AscendingCard(a);
    ElementsCard(b);
    SubsetCard(Elements(a), Elements(b));
  }

  lemma {:induction false} AscendingCard(a: seq<string>)
    requires Ascending(a)
    ensures |Elements(a)| == |a|
  {
    if a != [] {
      var n := |a| - 1;
      AscendingCard(a[..n]);
      assert a == a[..n] + [a[n]];
      assert a[n] !in a[..n] by {
        NotBelowSelf(a[n]);
        assert forall i :: 0 <= i < n ==> Below(a[i], a[n]);
      }
      assert Elements(a) == Elements(a[..n]) + {a[n]};
    }
  }

  lemma {:induction false} ElementsCard(b: seq<string>)
    ensures |Elements(b)| <= |b|
  {
    if b != [] {
      var n := |b| - 1;
      ElementsCard(b[..n]);
      assert b == b[..n] + [b[n]];
      assert Elements(b) == Elements(b[..n]) + {b[n]};
    }
  }

  lemma {:induction false} KeptNormal(
    c: Cone, includes: seq<string>, excludes: seq<string>, h: Option<Horizon>, valid: string -> bool)
    requires Minimal(c) && Condensed(Elements(c.includes), Elements(c.excludes), Elements(includes), Elements(excludes))
    requires InBounds(includes, excludes, h) && AllAdmitted(includes, valid) && AllAdmitted(excludes, valid)
    ensures Normal(c.(horizon := h), valid)
    ensures c.includes == [] <==> includes == []
    ensures includes != [] ==> forall p :: Covers(c, p) == Covered(Elements(includes), Elements(excludes), p)
  {
    AscendingShorter(c.includes, includes);
    AscendingShorter(c.excludes, excludes);
    assert includes != [] ==> Alive(Elements(c.includes), includes[0]) by {
      assert includes != [] ==> includes[0] in Elements(includes);
    }
    forall m | m in c.includes || m in c.excludes ensures Admitted(m, valid) {
      assert m in Elements(c.includes) || m in Elements(c.excludes);
      assert m in Elements(includes) || m in Elements(excludes);
    }
  }
}
