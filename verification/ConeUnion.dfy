/** Widening a store's cone by a checkout's: the union of two longest-match cones. */
module ConeUnion {
  import opened Basics
  import opened PathOrder
  import opened Cone
  import opened ConeBuild

  // --------------------------------------------------- where coverage is decided

  /** Past the longest member covering it, a path is decided as that member is. */
  lemma {:induction false} DecidedAt(I: set<string>, X: set<string>, m: string, path: string)
    requires MemberCovers(m, path)
    requires forall k :: k in I + X && MemberCovers(k, path) ==> |k| <= |m|
    ensures Covered(I, X, path) == Covered(I, X, m)
  {
    forall k | k in I + X ensures MemberCovers(k, path) <==> MemberCovers(k, m) {
      if MemberCovers(k, path) {
        Nested(k, m, path);
      }
      if MemberCovers(k, m) {
        CoversTransitive(k, m, path);
      }
    }
    forall k | k in I && MemberCovers(k, path) ensures OutranksAll(k, X, path) <==> OutranksAll(k, X, m) {
    }
  }

  /** The longest of the members covering path, if any does. */
  lemma {:induction false} LongestMember(members: seq<string>, path: string) returns (m: string)
    requires exists k :: k in members && MemberCovers(k, path)
    ensures m in members && MemberCovers(m, path)
    ensures forall k :: k in members && MemberCovers(k, path) ==> |k| <= |m|
  {
    var last := members[|members| - 1];
    var init := members[..|members| - 1];
    assert members == init + [last];
    if exists k :: k in init && MemberCovers(k, path) {
      m := LongestMember(init, path);
      if MemberCovers(last, path) && |last| > |m| {
        m := last;
      }
    } else {
      m := last;
    }
  }

  ghost predicate EitherCovers(left: Cone, right: Cone, path: string) {
    Covers(left, path) || Covers(right, path)
  }

  /** The members of both cones, of either polarity. */
  ghost predicate AllMembers(left: Cone, right: Cone, paths: seq<string>) {
    forall m {:trigger m in paths} ::
      m in paths <==> m in left.includes || m in left.excludes || m in right.includes || m in right.excludes
  }

  /** Members chosen from both cones' decide every path as the cones do if they do so at those members. */
  lemma {:induction false} AgreeEverywhere(
    left: Cone, right: Cone, paths: seq<string>, I: set<string>, X: set<string>, path: string)
    requires left.includes != [] && right.includes != [] && AllMembers(left, right, paths)
    requires forall m :: m in I + X ==> m in paths
    requires forall m :: m in paths ==> Covered(I, X, m) == EitherCovers(left, right, m)
    ensures Covered(I, X, path) == EitherCovers(left, right, path)
  {
    if exists k :: k in paths && MemberCovers(k, path) {
      var m := LongestMember(paths, path);
      DecidedAt(I, X, m, path);
      DecidedAt(Elements(left.includes), Elements(left.excludes), m, path);
      DecidedAt(Elements(right.includes), Elements(right.excludes), m, path);
    }
  }

  // ------------------------------------------------------------- sorted members

  function Itself(p: string): string {
    p
  }

  lemma {:induction false} InsertAscending(x: string, s: seq<string>)
    requires Ascending(s) && x !in s
    ensures Ascending(Insert(x, s, Itself))
  {
    if s == [] {
    } else if !Below(s[0], x) {
      BelowTotal(s[0], x);
      forall j | 0 < j < |s| ensures Below(x, s[j]) {
        BelowTransitive(x, s[0], s[j]);
      }
    } else {
      InsertAscending(x, s[1..]);
      var rest := Insert(x, s[1..], Itself);
      forall j | 0 <= j < |rest| ensures Below(s[0], rest[j]) {
        InsertElements(x, s[1..], Itself, rest[j]);
      }
    }
  }

  lemma {:induction false} SortAscending(s: seq<string>)
    requires NoRepeats(s)
    ensures Ascending(Sort(s, Itself))
  {
    if s != [] {
      SortAscending(s[1..]);
      SortElements(s[1..], Itself, s[0]);
      InsertAscending(s[0], Sort(s[1..], Itself));
    }
  }

  /** The members of both cones, sorted. */
  method SortedMembers(left: Cone, right: Cone) returns (paths: seq<string>)
    ensures Ascending(paths) && AllMembers(left, right, paths)
  {
    var list := ListOf(Elements(left.includes) + Elements(left.excludes)
                       + Elements(right.includes) + Elements(right.excludes));
    SortAscending(list);
    paths := Sort(list, Itself);
    forall m ensures m in paths <==> m in Elements(list) {
      SortElements(list, Itself, m);
    }
  }

  // ------------------------------------------------------------- the nearest parent

  ghost function Decided(decisions: map<string, bool>, covered: bool): set<string> {
    set m | m in decisions && decisions[m] == covered
  }

  /** parent names a directory name lies in. */
  predicate Parent(parent: string, name: string) {
    parent + "/" <= name
  }

  lemma {:induction false} ParentCovers(parent: string, name: string)
    ensures Parent(parent, name) <==> MemberCovers(parent, name) && parent != name
  {
    var slashed := parent + "/";
    if slashed <= name {
      assert name[|parent|] == slashed[|parent|] == '/';
      assert parent == slashed[..|parent|] == name[..|parent|];
    }
    if MemberCovers(parent, name) && parent != name {
      assert |parent| < |name|;
      assert name[..|parent| + 1] == slashed;
    }
  }

  /** The decision of the longest parent, found in whatever order the map yields them. */
  method ParentDecision(decisions: map<string, bool>, name: string) returns (covered: bool)
    requires "" !in decisions
    ensures covered == Covered(Decided(decisions, true), Decided(decisions, false), Dir(name))
  {
    var length := 0;
    ghost var nearest := "";
    covered := false;
    var rest := decisions.Keys;
    while rest != {}
      invariant rest <= decisions.Keys && length == |nearest|
      invariant nearest == "" ==> !covered
      invariant nearest != "" ==> nearest in decisions && Parent(nearest, name) && covered == decisions[nearest]
      invariant forall m :: m in decisions && m !in rest && Parent(m, name) ==> |m| <= length
      decreases |rest|
    {
      var parent :| parent in rest;
      rest := rest - {parent};
      if |parent| > length && Parent(parent, name) {
        covered, length := decisions[parent], |parent|;
        nearest := parent;
      }
    }
    forall m | m in decisions ensures MemberCovers(m, Dir(name)) <==> Parent(m, name) {
      ParentCovers(m, name);
      DirCovered(m, name);
    }
    NearestDecides(Decided(decisions, true), Decided(decisions, false), Dir(name), nearest, nearest != "" && !covered);
  }

  // --------------------------------------------------------------------- the union

  /** The members kept for the paths seen: they turn coverage where the two cones together do. */
  ghost predicate Kept(left: Cone, right: Cone, seen: seq<string>, I: set<string>, X: set<string>) {
    && Turning(I, X)
    && (forall m {:trigger m in seen} :: m in I + X ==> m in seen)
    && (forall m {:trigger m in seen} :: m in seen ==> Covered(I, X, m) == EitherCovers(left, right, m))
  }

  lemma {:induction false} NoneUnderNext(paths: seq<string>, i: nat, S: set<string>)
    requires Ascending(paths) && i < |paths| && forall m :: m in S ==> m in paths[..i]
    ensures NoneUnder(paths[i], S)
  {
    forall m | m in S ensures !MemberCovers(paths[i], m) {
      var k :| 0 <= k < i && paths[k] == m;
      assert Below(m, paths[i]);
      Asymmetric(m, paths[i]);
      if MemberCovers(paths[i], m) && paths[i] != m {
        PrefixBelow(paths[i], m);
      }
    }
  }

  lemma {:induction false} KeepTurnOn(
    left: Cone, right: Cone, seen: seq<string>, I: set<string>, X: set<string>, name: string)
    requires Kept(left, right, seen, I, X) && name != "" && NoneUnder(name, Elements(seen)) && NoneUnder(name, I)
             && NoneUnder(name, X)
    requires EitherCovers(left, right, name) && !Covered(I, X, Dir(name))
    ensures Kept(left, right, seen + [name], I + {name}, X)
  {
    OffMember(I, X, name);
    TurningInclusion(I, X, name);
    forall m | m in seen + [name] ensures Covered(I + {name}, X, m) == EitherCovers(left, right, m) {
      AddInclusion(I, X, name, m);
      assert m in seen ==> m in Elements(seen);
    }
  }

  lemma {:induction false} KeepTurnOff(
    left: Cone, right: Cone, seen: seq<string>, I: set<string>, X: set<string>, name: string)
    requires Kept(left, right, seen, I, X) && name != "" && NoneUnder(name, Elements(seen)) && NoneUnder(name, I)
             && NoneUnder(name, X)
    requires !EitherCovers(left, right, name) && Covered(I, X, Dir(name))
    ensures Kept(left, right, seen + [name], I, X + {name})
  {
    OffMember(I, X, name);
    TurningExclusion(I, X, name);
    forall m | m in seen + [name] ensures Covered(I, X + {name}, m) == EitherCovers(left, right, m) {
      AddExclusion(I, X, name, m);
      assert m in seen ==> m in Elements(seen);
    }
  }

  lemma {:induction false} SkipNoTurn(
    left: Cone, right: Cone, seen: seq<string>, I: set<string>, X: set<string>, name: string)
    requires Kept(left, right, seen, I, X) && NoneUnder(name, I) && NoneUnder(name, X)
    requires EitherCovers(left, right, name) == Covered(I, X, Dir(name))
    ensures Kept(left, right, seen + [name], I, X)
  {
    OffMember(I, X, name);
  }

  lemma {:induction false} AscendingMore(list: seq<string>, paths: seq<string>, i: nat)
    requires Ascending(list) && Ascending(paths) && i < |paths| && forall m :: m in list ==> m in paths[..i]
    ensures Ascending(list + [paths[i]]) && Elements(list + [paths[i]]) == Elements(list) + {paths[i]}
  {
    forall k | 0 <= k < |list| ensures Below(list[k], paths[i]) {
      assert list[k] in paths[..i];
      var j :| 0 <= j < i && paths[j] == list[k];
    }
    AppendAscending(list, paths[i]);
  }

  /** What is known of the next path when the ones before it have been dealt with. */
  lemma {:induction false} NextName(left: Cone, right: Cone, paths: seq<string>, i: nat, I: set<string>, X: set<string>)
    requires Minimal(left) && Minimal(right) && AllMembers(left, right, paths)
    requires Ascending(paths) && i < |paths| && Kept(left, right, paths[..i], I, X)
    ensures NoneUnder(paths[i], I) && NoneUnder(paths[i], X) && NoneUnder(paths[i], Elements(paths[..i]))
    ensures paths[i] != "" && paths[i] !in I && paths[i] !in X
    ensures paths[..i + 1] == paths[..i] + [paths[i]]
    ensures forall m :: m in I + X ==> m in paths[..i]
  {
    NoneUnderNext(paths, i, I);
    NoneUnderNext(paths, i, X);
    NoneUnderNext(paths, i, Elements(paths[..i]));
    MemberNamed(left, right, paths, paths[i]);
    assert MemberCovers(paths[i], paths[i]);
  }

  /** The members at which the union turns, in order. */
  method UnionMembers(
    left: Cone, right: Cone, paths: seq<string>) returns (includes: seq<string>, excludes: seq<string>)
    requires Minimal(left) && Minimal(right) && Ascending(paths) && AllMembers(left, right, paths)
    ensures Ascending(includes) && Ascending(excludes)
    ensures Kept(left, right, paths, Elements(includes), Elements(excludes))
  {
    includes, excludes := [], [];
    var decisions: map<string, bool> := map[];
    for i := 0 to |paths|
      invariant Ascending(includes) && Ascending(excludes)
      invariant Decided(decisions, true) == Elements(includes) && Decided(decisions, false) == Elements(excludes)
      invariant Kept(left, right, paths[..i], Elements(includes), Elements(excludes))
    {
      var name := paths[i];
      ghost var I, X := Elements(includes), Elements(excludes);
      NextName(left, right, paths, i, I, X);
      Undecided(decisions, "", I, X);
      Undecided(decisions, name, I, X);
      var l := Decide(left, name);
      var r := Decide(right, name);
      var covered := l.covered || r.covered;
      var parentCovered := ParentDecision(decisions, name);
      if covered == parentCovered {
        SkipNoTurn(left, right, paths[..i], I, X, name);
        continue;
      }
      DecidedMore(decisions, name, covered);
      decisions := decisions[name := covered];
      if covered {
        KeepTurnOn(left, right, paths[..i], I, X, name);
        AscendingMore(includes, paths, i);
        includes := includes + [name];
      } else {
        KeepTurnOff(left, right, paths[..i], I, X, name);
        AscendingMore(excludes, paths, i);
        excludes := excludes + [name];
      }
    }
    assert paths[..|paths|] == paths;
  }

  lemma {:induction false} DecidedMore(decisions: map<string, bool>, name: string, covered: bool)
    requires name !in decisions
    ensures Decided(decisions[name := covered], covered) == Decided(decisions, covered) + {name}
    ensures Decided(decisions[name := covered], !covered) == Decided(decisions, !covered)
  {
  }

  lemma {:induction false} MemberNamed(left: Cone, right: Cone, paths: seq<string>, name: string)
    requires Minimal(left) && Minimal(right) && AllMembers(left, right, paths) && name in paths
    ensures name != ""
  {
    assert "" !in Elements(left.includes) && "" !in Elements(left.excludes);
    assert "" !in Elements(right.includes) && "" !in Elements(right.excludes);
  }

  lemma {:induction false} Undecided(decisions: map<string, bool>, name: string, I: set<string>, X: set<string>)
    requires Decided(decisions, true) == I && Decided(decisions, false) == X && name !in I && name !in X
    ensures name !in decisions
  {
    assert name !in Decided(decisions, true) && name !in Decided(decisions, false);
  }

  /** c covers a path exactly when one of the two does. */
  ghost predicate IsUnion(c: Cone, left: Cone, right: Cone) {
    forall p :: Covers(c, p) == EitherCovers(left, right, p)
  }

  /** The paths of a list of members. */
  ghost predicate DrawnFrom(list: seq<string>, paths: seq<string>) {
    forall m :: m in list ==> m in paths
  }

  lemma {:induction false} KeptAdmitted(
    left: Cone, right: Cone, paths: seq<string>, list: seq<string>, valid: string -> bool)
    requires Normal(left, valid) && Normal(right, valid) && AllMembers(left, right, paths) && DrawnFrom(list, paths)
    ensures AllAdmitted(list, valid)
  {
    forall m | m in list ensures Admitted(m, valid) {
      assert m in paths;
    }
  }

  /** Turning members contradict nothing, and each exclusion lies under an inclusion. */
  lemma {:induction false} TurningSound(I: set<string>, X: set<string>)
    requires Turning(I, X)
    ensures !Contradictory(I, X) && !SomeDead(I, X)
  {
    TurningDisjoint(I, X);
    forall x | x in X ensures Alive(I, x) {
      assert TurnsOff(I, X, x);
      var m :| m in I && MemberCovers(m, Dir(x)) && OutranksAll(m, X, Dir(x));
      DirCovered(m, x);
    }
  }

  /** Minimal members with the coverage of a cone are that cone's members, however it was built. */
  lemma {:induction false} SameLists(includes: seq<string>, excludes: seq<string>, c: Cone)
    requires Ascending(includes) && Ascending(excludes) && Turning(Elements(includes), Elements(excludes))
    requires Minimal(c) && c.includes != []
    requires forall p :: Covers(c, p) == Covered(Elements(includes), Elements(excludes), p)
    ensures c.includes == includes && c.excludes == excludes
  {
    forall p
      ensures Covered(Elements(c.includes), Elements(c.excludes), p) ==
              Covered(Elements(includes), Elements(excludes), p)
    {
      assert Covers(c, p) == Covered(Elements(includes), Elements(excludes), p);
    }
    SameMembers(Elements(c.includes), Elements(c.excludes), Elements(includes), Elements(excludes));
    SameElements(c.includes, includes);
    SameElements(c.excludes, excludes);
  }

  /** No cone of inclusions covers everything, and neither do two. */
  lemma {:induction false} UnionNotDense(left: Cone, right: Cone, valid: string -> bool)
    requires Normal(left, valid) && Normal(right, valid) && left.includes != [] && right.includes != []
    ensures exists p :: !EitherCovers(left, right, p)
  {
    var p := LongName(left.includes + right.includes);
    forall m | m in left.includes || m in right.includes ensures !MemberCovers(m, p) {
      assert m in left.includes + right.includes;
      assert p[|m|] in p;
    }
    assert !EitherCovers(left, right, p);
  }

  /** What the member lists found say of the union: they are the lists of any cone that is the union. */
  lemma {:induction false} UnionIsTheirs(
    left: Cone, right: Cone, paths: seq<string>, includes: seq<string>, excludes: seq<string>, c: Cone,
    valid: string -> bool)
    requires Normal(left, valid) && Normal(right, valid) && left.includes != [] && right.includes != []
    requires AllMembers(left, right, paths) && Ascending(includes) && Ascending(excludes)
    requires Kept(left, right, paths, Elements(includes), Elements(excludes))
    requires Normal(c, valid) && IsUnion(c, left, right)
    ensures c.includes == includes && c.excludes == excludes
  {
    UnionNotDense(left, right, valid);
    var q :| !EitherCovers(left, right, q);
    assert !Covers(c, q);
    KeptCovers(left, right, paths, includes, excludes);
    forall p ensures Covers(c, p) == Covered(Elements(includes), Elements(excludes), p) {
      assert Covers(c, p) == EitherCovers(left, right, p);
    }
    SameLists(includes, excludes, c);
  }

  lemma {:induction false} KeptCovers(
    left: Cone, right: Cone, paths: seq<string>, includes: seq<string>, excludes: seq<string>)
    requires left.includes != [] && right.includes != [] && AllMembers(left, right, paths)
    requires Kept(left, right, paths, Elements(includes), Elements(excludes))
    ensures forall p :: Covered(Elements(includes), Elements(excludes), p) == EitherCovers(left, right, p)
  {
    forall p ensures Covered(Elements(includes), Elements(excludes), p) == EitherCovers(left, right, p) {
      AgreeEverywhere(left, right, paths, Elements(includes), Elements(excludes), p);
    }
  }

  lemma {:induction false} KeptIncludes(
    left: Cone, right: Cone, paths: seq<string>, includes: seq<string>, excludes: seq<string>)
    requires Minimal(left) && left.includes != [] && AllMembers(left, right, paths)
    requires Kept(left, right, paths, Elements(includes), Elements(excludes))
    ensures includes != []
  {
    var m := left.includes[0];
    assert m in Elements(left.includes) && TurnsOn(Elements(left.includes), Elements(left.excludes), m);
    assert m in paths && Covered(Elements(includes), Elements(excludes), m);
  }

  /**
   * The union of two cones with inclusions is the one cone covering exactly what
   * either covers; it is refused only when that cone would exceed the member bound.
   */
  method RequiredPathUnion(left: Option<Cone>, right: Option<Cone>, valid: string -> bool)
    returns (r: Result<Option<Cone>>)
    requires left.Some? ==> Normal(left.value, valid)
    requires right.Some? ==> Normal(right.value, valid)
    ensures r == Ok(None) <==> left == None || right == None
    ensures left.Some? && right.Some? && r.Ok? ==>
              Normal(r.value.value, valid) && r.value.value.horizon == None && r.value.value.includes != []
    ensures left.Some? && right.Some? && left.value.includes != [] && right.value.includes != [] ==>
              (r.Ok? <==> exists c :: Normal(c, valid) && IsUnion(c, left.value, right.value))
    ensures left.Some? && right.Some? && r.Ok? ==>
              (IsUnion(r.value.value, left.value, right.value) <==>
                  left.value.includes != [] && right.value.includes != [])
    ensures left.Some? && right.Some? && left.value.includes == [] && right.value.includes == [] ==> r.Err?
    ensures left.Some? && right.Some? && OneDense(left.value, right.value) ==>
              r.Ok? && forall p :: Covers(r.value.value, p) <==> UnderMember(left.value, right.value, p)
    ensures r.Err? ==> r.error == Bounds
  {
    if left == None || right == None {
      return Ok(None);
    }
    var l, t := left.value, right.value;
    var paths := SortedMembers(l, t);
    var includes, excludes := UnionMembers(l, t, paths);
    assert DrawnFrom(includes, paths) by {
      assert forall m :: m in includes ==> m in Elements(includes) + Elements(excludes);
    }
    assert DrawnFrom(excludes, paths) by {
      assert forall m :: m in excludes ==> m in Elements(includes) + Elements(excludes);
    }
    KeptAdmitted(l, t, paths, includes, valid);
    KeptAdmitted(l, t, paths, excludes, valid);
    TurningSound(Elements(includes), Elements(excludes));
    var built := Build(includes, excludes, None, valid);
    UnionResult(l, t, paths, includes, excludes, built, valid);
    if l.includes == [] || t.includes == [] {
      DenseResult(l, t, paths, includes, excludes, built, valid);
    }
    r := match built case Ok(c) => Ok(Some(c)) case Err(e) => Err(e);
  }

  /** How a built cone answers for the union its lists were gathered for. */
  lemma {:induction false} UnionResult(
    left: Cone, right: Cone, paths: seq<string>, includes: seq<string>, excludes: seq<string>, built: Result<Cone>,
    valid: string -> bool)
    requires Normal(left, valid) && Normal(right, valid) && AllMembers(left, right, paths)
    requires Ascending(includes) && Ascending(excludes)
    requires Kept(left, right, paths, Elements(includes), Elements(excludes))
    requires built.Ok? <==> includes != [] && |includes| + |excludes| <= MAX_MEMBERS
    requires built.Ok? ==> Normal(built.value, valid) && built.value.horizon == None
    requires built.Ok? ==> forall p :: Covers(built.value, p) == Covered(Elements(includes), Elements(excludes), p)
    ensures left.includes != [] && right.includes != [] ==>
              (built.Ok? <==> exists c :: Normal(c, valid) && IsUnion(c, left, right))
    ensures built.Ok? ==> (IsUnion(built.value, left, right) <==> left.includes != [] && right.includes != [])
  {
    if left.includes != [] && right.includes != [] {
      KeptCovers(left, right, paths, includes, excludes);
      KeptIncludes(left, right, paths, includes, excludes);
      if c :| Normal(c, valid) && IsUnion(c, left, right) {
        UnionIsTheirs(left, right, paths, includes, excludes, c, valid);
      }
      assert built.Ok? ==> IsUnion(built.value, left, right);
    } else if built.Ok? {
      SomethingUncovered(built.value.includes, Elements(built.value.excludes));
      assert EitherCovers(left, right, LongName(built.value.includes));
    }
  }

  /** One of the two covers every path, having no members, and the other has some. */
  ghost predicate OneDense(left: Cone, right: Cone) {
    (left.includes == []) != (right.includes == [])
  }

  /** Some member of either, of whatever polarity, covers the path. */
  ghost predicate UnderMember(left: Cone, right: Cone, path: string) {
    exists m :: (m in left.includes || m in left.excludes || m in right.includes || m in right.excludes)
      && MemberCovers(m, path)
  }

  /** With one of the cones dense, every member is covered, so the union found is their subtrees. */
  lemma {:induction false} DenseCovers(
    left: Cone, right: Cone, paths: seq<string>, I: set<string>, X: set<string>, path: string)
    requires AllMembers(left, right, paths) && (left.includes == [] || right.includes == [])
    requires Kept(left, right, paths, I, X)
    ensures Covered(I, X, path) <==> UnderMember(left, right, path)
  {
    if k :| k in paths && MemberCovers(k, path) {
      var m := LongestMember(paths, path);
      DecidedAt(I, X, m, path);
      assert Covered(I, X, m);
    }
    if Covered(I, X, path) {
      var m :| m in I && MemberCovers(m, path) && OutranksAll(m, X, path);
      assert m in I + X && m in paths;
    }
  }

  lemma {:induction false} DenseNoExclusion(left: Cone, right: Cone, paths: seq<string>, I: set<string>, X: set<string>)
    requires (left.includes == [] || right.includes == []) && Kept(left, right, paths, I, X)
    ensures X == {}
  {
    forall m ensures m !in X {
      MembersAreTurns(I, X, m);
      assert m in I + X ==> m in paths;
    }
  }

  lemma {:induction false} DenseResult(
    left: Cone, right: Cone, paths: seq<string>, includes: seq<string>, excludes: seq<string>, built: Result<Cone>,
    valid: string -> bool)
    requires Normal(left, valid) && Normal(right, valid) && AllMembers(left, right, paths)
    requires left.includes == [] || right.includes == []
    requires Ascending(includes) && Ascending(excludes) && DrawnFrom(includes, paths)
    requires Kept(left, right, paths, Elements(includes), Elements(excludes))
    requires built.Ok? <==> includes != [] && |includes| + |excludes| <= MAX_MEMBERS
    requires built.Ok? ==>
               built.value.includes != []
               && forall p :: Covers(built.value, p) == Covered(Elements(includes), Elements(excludes), p)
    ensures left.includes == [] && right.includes == [] ==> built.Err?
    ensures OneDense(left, right) ==> built.Ok? && forall p :: Covers(built.value, p) <==> UnderMember(left, right, p)
  {
    NoInclusionNoExclusion(left);
    NoInclusionNoExclusion(right);
    DenseNoExclusion(left, right, paths, Elements(includes), Elements(excludes));
    NoElements(excludes);
    forall p ensures Covered(Elements(includes), Elements(excludes), p) <==> UnderMember(left, right, p) {
      DenseCovers(left, right, paths, Elements(includes), Elements(excludes), p);
    }
    if OneDense(left, right) {
      DenseFits(left, right, paths, includes, excludes);
    } else {
      assert includes != [] ==> includes[0] in paths;
    }
  }

  lemma {:induction false} NoElements(s: seq<string>)
    ensures Elements(s) == {} ==> s == []
  {
    assert s != [] ==> s[0] in Elements(s);
  }

  lemma {:induction false} DenseFits(
    left: Cone, right: Cone, paths: seq<string>, includes: seq<string>, excludes: seq<string>)
    requires OneDense(left, right) && AllMembers(left, right, paths) && Ascending(includes) && excludes == []
    requires left.includes == [] ==> left.excludes == []
    requires right.includes == [] ==> right.excludes == []
    requires |left.includes| + |left.excludes| <= MAX_MEMBERS && |right.includes| + |right.excludes| <= MAX_MEMBERS
    requires DrawnFrom(includes, paths)
    requires forall p :: Covered(Elements(includes), {}, p) <==> UnderMember(left, right, p)
    ensures includes != [] && |includes| + |excludes| <= MAX_MEMBERS
  {
    var c := if left.includes == [] then right else left;
    var all := c.includes + c.excludes;
    forall m | m in Elements(includes) ensures m in Elements(all) {
      assert m in paths;
    }
    AscendingShorter(includes, all);
    var m := c.includes[0];
    assert MemberCovers(m, m) && m in c.includes;
    assert UnderMember(left, right, m);
  }

  /** A store with only a horizon, widened to a: the path union covers a alone, not b. */
  lemma {:induction false} HorizonOnlyFallsShort(h: Horizon, c: Cone, valid: string -> bool)
    requires valid("a")
    requires forall p :: Covers(c, p) <==> UnderMember(Cone([], [], Some(h)), Cone(["a"], [], None), p)
    ensures Normal(Cone([], [], Some(h)), valid) && Normal(Cone(["a"], [], None), valid)
    ensures OneDense(Cone([], [], Some(h)), Cone(["a"], [], None))
    ensures Covers(Cone([], [], Some(h)), "b") && !Covers(c, "b")
  {
    var I, X := {"a"}, {};
    assert Elements(["a"]) == I && Elements([]) == X;
    assert MemberCovers("a", "a") && OutranksAll("a", X, "a");
    assert Dir("a") == Dir("") == "";
    assert TurnsOn(I, X, "a");
    assert "a"[0] == 'a' && "b"[0] == 'b';
    assert !MemberCovers("a", "b");
  }

  /** The lists of a built cone build it again, with or without a horizon. */
  lemma {:induction false} Rebuildable(c: Cone, h: Option<Horizon>, valid: string -> bool)
    requires Normal(c, valid) && (c.includes != [] || h.Some?)
    ensures Buildable(c.includes, c.excludes, h, valid)
  {
    TurningSound(Elements(c.includes), Elements(c.excludes));
  }

  /** The cone with its horizon replaced; refused exactly when nothing would be left. */
  method WithHorizon(c: Cone, h: Option<Horizon>, valid: string -> bool) returns (r: Result<Cone>)
    requires Normal(c, valid)
    ensures r.Ok? <==> c.includes != [] || h.Some?
    ensures r.Ok? ==> r.value == c.(horizon := h) && Normal(r.value, valid)
    ensures r.Err? ==> r.error == Bounds
  {
    r := Build(c.includes, c.excludes, h, valid);
    if c.includes != [] || h.Some? {
      Rebuildable(c, h, valid);
      NoInclusionNoExclusion(c);
      if c.includes != [] {
        SameLists(c.includes, c.excludes, r.value);
      } else {
        NoInclusionNoExclusion(r.value);
      }
    }
  }

  /** What a store keeps: every path when dense, else what its cone covers. */
  ghost predicate StoreCovers(store: Option<Cone>, path: string) {
    store == None || Covers(store.value, path)
  }

  /**
   * Widening a store by a checkout's cone: what either covers stays covered and
   * nothing else is added, the store's horizon is kept as it is, a dense store stays dense.
   */
  method RequiredStoreUnion(left: Option<Cone>, right: Option<Cone>, valid: string -> bool)
    returns (r: Result<Option<Cone>>)
    requires left.Some? ==> Normal(left.value, valid)
    requires right.Some? ==> Normal(right.value, valid)
    ensures left == None ==> r == Ok(None)
    ensures r == Err(HorizonCheckout) <==> left.Some? && right.Some? && right.value.horizon.Some?
    ensures r.Ok? && left.Some? && left.value.horizon.Some? ==>
              r.value.Some? && r.value.value.horizon == left.value.horizon
    ensures r.Ok? && left.Some? && left.value.horizon == None ==> r.value == None || r.value.value.horizon == None
    ensures r.Ok? && r.value.Some? ==> Normal(r.value.value, valid)
    ensures r.Ok? ==> forall p :: StoreCovers(r.value, p) == (StoreCovers(left, p) || StoreCovers(right, p))
    ensures r.Ok? && left.Some? ==> (r.value == None <==> left.value.horizon == None && right == None)
    ensures r.Err? && r.error != HorizonCheckout ==>
              r.error == Bounds && left.Some? && right.Some? &&
              !exists c :: Normal(c, valid) && IsUnion(c, left.value.(horizon := None), right.value)
  {
    if left == None {
      return Ok(None);
    }
    if right.Some? && right.value.horizon.Some? {
      return Err(HorizonCheckout);
    }
    var h := left.value.horizon;
    if h == None {
      r := RequiredPathUnion(left, right, valid);
      assert left.value.(horizon := None) == left.value;
      return;
    }
    if right == None || |left.value.includes| == 0 {
      var dense := Build([], [], h, valid);
      assert Buildable([], [], h, valid);
      return Ok(Some(dense.value));
    }
    var paths := WithHorizon(left.value, None, valid);
    var union := RequiredPathUnion(Some(paths.value), right, valid);
    if union.Err? {
      return union;
    }
    var widened := WithHorizon(union.value.value, h, valid);
    HorizonNarrowsNoPath(left.value, paths.value, union.value.value, widened.value, right.value);
    r := Ok(Some(widened.value));
  }

  /** A horizon changes nothing of which paths are covered. */
  lemma {:induction false} HorizonNarrowsNoPath(left: Cone, paths: Cone, union: Cone, widened: Cone, right: Cone)
    requires paths == left.(horizon := None) && widened.includes == union.includes && widened.excludes == union.excludes
    requires IsUnion(union, paths, right)
    ensures forall p :: Covers(widened, p) == (Covers(left, p) || Covers(right, p))
  {
    forall p ensures Covers(widened, p) == (Covers(left, p) || Covers(right, p)) {
      assert Covers(union, p) == EitherCovers(paths, right, p);
    }
  }
}
