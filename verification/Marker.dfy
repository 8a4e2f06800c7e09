/**
 * A checkout database moving between its two names, step by step: one process
 * changes the checkout's cone and may die after any step; any number of others,
 * opening the checkout while it has both names, complete the move they see.
 */
module Marker {
  import opened Basics

  /** The name every client opens, and the one only sparse checkouts use. */
  datatype Name = Native | Private

  /** What the process changing the cone does once it is not moving the database. */
  datatype Todo =
    | Nothing
    | StoreCone(from: Name)     // the record and the new cone are to be committed; it was found under from
    | ClearCone                // the record is to be committed with no cone
    | GoNative(sparse: bool)   // the cone is cleared, the database is to take the native name

  datatype Mover =
    | Gone
    | Ready(at: Name, todo: Todo)
    | Recorded(at: Name, to: Name, todo: Todo)   // the target is stored, the database closed
    | Linked(at: Name, to: Name, todo: Todo)     // the database also has the target name

  datatype Recovery = Observed | Decided(drop: Name)

  datatype State = State(
    native: bool, private: bool, recorded: Option<Name>, sparse: bool,
    mover: Mover, recoveries: map<nat, Recovery>)

  datatype Step =
    | SetSparse | SetDense | Commit | FailCommit | Begin | Refuse | Link | Unlink | Crash | Reopen
    | Observe(id: nat) | Read(id: nat) | Drop(id: nat) | Die(id: nat)

  function Other(n: Name): Name {
    if n == Native then Private else Native
  }

  predicate Has(s: State, n: Name) {
    if n == Native then s.native else s.private
  }

  function Put(s: State, n: Name, present: bool): State {
    if n == Native then s.(native := present) else s.(private := present)
  }

  // ------------------------------------------------------------------------ steps

  predicate Enabled(s: State, e: Step) {
    match e
    case SetSparse => s.mover.Ready? && s.mover.todo.Nothing? && (s.mover.at == Native ==> !s.private)
    case SetDense => s.mover.Ready? && s.mover.todo.Nothing? && (s.mover.at == Private ==> !s.native)
    case Commit => s.mover.Ready? && (s.mover.todo.StoreCone? || s.mover.todo.ClearCone?)
    case FailCommit => s.mover.Ready? && (s.mover.todo.StoreCone? || s.mover.todo.ClearCone?)
    case Begin => s.mover.Ready? && s.mover.todo.GoNative? && (s.mover.at == Private ==> !s.native)
    case Refuse => s.mover.Ready? && s.mover.todo.GoNative? && s.mover.at == Private && s.native
    case Link => s.mover.Recorded? && Has(s, s.mover.at) && !Has(s, s.mover.to)
    case Unlink => s.mover.Linked?
    case Crash => !s.mover.Gone?
    case Reopen => s.mover.Gone? && s.native != s.private
    case Observe(id) => id !in s.recoveries && s.native && s.private
    case Read(id) => id in s.recoveries && s.recoveries[id].Observed?
    case Drop(id) => id in s.recoveries && s.recoveries[id].Decided?
    case Die(id) => id in s.recoveries
  }

  /** Storing the target's name, the first lasting act of a move. */
  function StartMove(s: State, at: Name, to: Name, todo: Todo): State {
    if at == to then s.(mover := Ready(at, todo))
    else s.(mover := Recorded(at, to, todo), recorded := Some(to))
  }

  /** The name a recovery removes: not the recorded target, or failing a record, by what the database holds. */
  function ToDrop(recorded: Option<Name>, sparse: bool): Name {
    match recorded
    case Some(target) => Other(target)
    case None => if sparse then Native else Private
  }

  function Apply(s: State, e: Step): State
    requires Enabled(s, e)
  {
    match e
    case SetSparse => StartMove(s, s.mover.at, Private, StoreCone(s.mover.at))
    case SetDense => s.(mover := Ready(s.mover.at, ClearCone))
    case Commit =>
      if s.mover.todo.StoreCone? then s.(sparse := true, mover := Ready(s.mover.at, Nothing))
      else s.(sparse := false, mover := Ready(s.mover.at, GoNative(s.sparse)))
    case FailCommit =>
      if s.mover.todo.StoreCone? then StartMove(s, s.mover.at, s.mover.todo.from, Nothing)
      else s.(mover := Ready(s.mover.at, Nothing))
    case Begin => StartMove(s, s.mover.at, Native, Nothing)
    case Refuse => s.(sparse := s.mover.todo.sparse, mover := Ready(s.mover.at, Nothing))
    case Link => Put(s, s.mover.to, true).(mover := Linked(s.mover.at, s.mover.to, s.mover.todo))
    case Unlink => Put(s, s.mover.at, false).(mover := Ready(s.mover.to, s.mover.todo))
    case Crash => s.(mover := Gone)
    case Reopen => s.(mover := Ready(if s.native then Native else Private, Nothing))
    case Observe(id) => s.(recoveries := s.recoveries[id := Observed])
    case Read(id) =>
      if s.private then s.(recoveries := s.recoveries[id := Decided(ToDrop(s.recorded, s.sparse))])
      else s.(recoveries := s.recoveries - {id})
    case Drop(id) => Put(s, s.recoveries[id].drop, false).(recoveries := s.recoveries - {id})
    case Die(id) => s.(recoveries := s.recoveries - {id})
  }

  ghost predicate Runs(s: State, es: seq<Step>)
    decreases |es|
  {
    es != [] ==> Enabled(s, es[0]) && Runs(Apply(s, es[0]), es[1..])
  }

  ghost function After(s: State, es: seq<Step>): State
    requires Runs(s, es)
    decreases |es|
  {
    if es == [] then s else After(Apply(s, es[0]), es[1..])
  }

  // -------------------------------------------------- no cone under the native name

  /** What every client may open holds no cone. */
  predicate NativeIsDense(s: State) {
    s.native ==> !s.sparse
  }

  /** With what the process under way may still do to the database. */
  predicate Guarded(s: State) {
    && NativeIsDense(s)
    && match s.mover
       case Gone => true
       case Ready(at, todo) =>
         && (at == Native ==> !s.sparse)
         && (at == Private ==> !s.native)
         && (todo.StoreCone? ==> at == Private && (todo.from == Native ==> !s.sparse))
         && (todo.GoNative? ==> !s.sparse)
       case Recorded(at, to, todo) =>
         at == Other(to) && !s.sparse && (to == Native ==> todo == Nothing)
           && (to == Private ==> todo == StoreCone(Native))
       case Linked(at, to, todo) =>
         at == Other(to) && !s.sparse && (to == Native ==> todo == Nothing)
           && (to == Private ==> todo == StoreCone(Native))
  }

  lemma {:induction false} StepGuarded(s: State, e: Step)
    requires Guarded(s) && Enabled(s, e)
    ensures Guarded(Apply(s, e))
  {
  }

  /** However moves, crashes and recoveries interleave, a database holding a cone is never under the native name. */
  lemma {:induction false} ConeNeverNative(s: State, es: seq<Step>)
    requires Guarded(s) && Runs(s, es)
    ensures Guarded(After(s, es)) && NativeIsDense(After(s, es))
    decreases |es|
  {
    if es != [] {
      StepGuarded(s, es[0]);
      ConeNeverNative(Apply(s, es[0]), es[1..]);
    }
  }

  // ------------------------------------------------------------ a name always remains

  /** A step that stores a new target. */
  predicate Starts(s: State, e: Step)
    requires Enabled(s, e)
  {
    Apply(s, e).mover.Recorded? && !s.mover.Recorded?
  }

  /**
   * No recovery under way can harm a move starting now: none has decided what
   * to drop, and none can decide before the move has linked its target.
   */
  ghost predicate Clear(s: State) {
    && (forall id :: id in s.recoveries ==> s.recoveries[id].Observed?)
    && (s.mover.Ready? && s.mover.at == Private ==> s.recoveries == map[])
  }

  /** A run in which every move starts clear of the recoveries of earlier ones. */
  ghost predicate Unmixed(s: State, es: seq<Step>)
    requires Runs(s, es)
    decreases |es|
  {
    es != [] ==> (Starts(s, es[0]) ==> Clear(s)) && Unmixed(Apply(s, es[0]), es[1..])
  }

  predicate Only(s: State, n: Name) {
    Has(s, n) && !Has(s, Other(n))
  }

  /** Every recovery under way leaves the recorded target alone. */
  ghost predicate SparesTarget(s: State) {
    && (s.recoveries != map[] ==> s.recorded.Some?)
    && (forall id :: id in s.recoveries && s.recoveries[id].Decided? ==>
        s.recorded == Some(Other(s.recoveries[id].drop)))
  }

  /** No recovery under way will drop n, the only name: n is the target, or nothing is there to decide by. */
  ghost predicate OutOfReach(s: State, n: Name) {
    || s.recoveries == map[]
    || s.recorded == Some(n)
    || (n == Native && forall id :: id in s.recoveries ==> s.recoveries[id].Observed?)
  }

  ghost predicate Kept(s: State) {
    && SparesTarget(s)
    && match s.mover
       case Gone =>
         || (s.native && s.private && s.recorded.Some?)
         || exists n :: Only(s, n) && OutOfReach(s, n)
       case Ready(at, todo) => Only(s, at) && OutOfReach(s, at)
       case Recorded(at, to, todo) => 
         && at == Other(to) && Only(s, at) && s.recorded == Some(to)
         && (forall id :: id in s.recoveries ==> s.recoveries[id].Observed?)
         && (at == Private ==> s.recoveries == map[])
       case Linked(at, to, todo) => at == Other(to) && Has(s, to) && s.recorded == Some(to)
  }

  lemma {:induction false} StepKept(s: State, e: Step)
    requires Kept(s) && Enabled(s, e) && (Starts(s, e) ==> Clear(s))
    ensures Kept(Apply(s, e))
  {
    if s.mover.Gone? {
      GoneStepKept(s, e);
    } else if e.Observe? || e.Read? || e.Drop? || e.Die? {
      RecoveryStepKept(s, e);
    } else {
      MoverStepKept(s, e);
    }
  }

  lemma {:induction false} MoverStepKept(s: State, e: Step)
    requires Kept(s) && Enabled(s, e) && (Starts(s, e) ==> Clear(s)) && !s.mover.Gone?
    requires !(e.Observe? || e.Read? || e.Drop? || e.Die?)
    ensures Kept(Apply(s, e))
  {
    if e.Crash? && !(s.native && s.private) {
      var n := if s.native then Native else Private;
      assert Only(Apply(s, e), n);
    }
  }

  lemma {:induction false} RecoveryStepKept(s: State, e: Step)
    requires Kept(s) && Enabled(s, e) && !s.mover.Gone?
    requires e.Observe? || e.Read? || e.Drop? || e.Die?
    ensures Kept(Apply(s, e))
  {
  }

  lemma {:induction false} GoneStepKept(s: State, e: Step)
    requires Kept(s) && Enabled(s, e) && s.mover.Gone?
    ensures Kept(Apply(s, e))
  {
    var t := Apply(s, e);
    if !e.Reopen? && !(t.native && t.private) {
      var n := if t.native then Native else Private;
      assert Only(s, n) || (e.Drop? && Only(t, n));
      assert Only(t, n);
    }
  }

  /**
   * Whatever happens during a move, crashes included, the recoveries of that
   * move and the move itself never remove both names between them, over any
   * number of moves as long as each starts clear.
   */
  lemma {:induction false} NameRemains(s: State, es: seq<Step>)
    requires Kept(s) && Runs(s, es) && Unmixed(s, es)
    ensures Kept(After(s, es)) && (After(s, es).native || After(s, es).private)
    decreases |es|
  {
    if es != [] {
      StepKept(s, es[0]);
      NameRemains(Apply(s, es[0]), es[1..]);
    }
  }

  lemma {:induction false} DecidedCanLose(s: State, e: Step, id: nat)
    requires Kept(s) && Enabled(s, e) && Starts(s, e) && id in s.recoveries && s.recoveries[id].Decided?
    ensures exists es :: Runs(s, [e] + es) && !After(s, [e] + es).native && !After(s, [e] + es).private
  {
    var t := Apply(s, e);
    var t1 := Apply(t, Link);
    var t2 := Apply(t1, Unlink);
    var t3 := Apply(t2, Drop(id));
    OneStep(t2, Drop(id), [], t3);
    OneStep(t1, Unlink, [Drop(id)], t2);
    OneStep(t, Link, [Unlink, Drop(id)], t1);
    OneStep(s, e, [Link, Unlink, Drop(id)], t);
  }

  lemma {:induction false} ObservedCanLose(s: State, e: Step, id: nat)
    requires Kept(s) && Enabled(s, e) && Starts(s, e) && s.mover.at == Private && id in s.recoveries
             && s.recoveries[id].Observed?
    ensures exists es :: Runs(s, [e] + es) && !After(s, [e] + es).native && !After(s, [e] + es).private
  {
    var t := Apply(s, e);
    var t1 := Apply(t, Read(id));
    var t2 := Apply(t1, Drop(id));
    OneStep(t1, Drop(id), [], t2);
    OneStep(t, Read(id), [Drop(id)], t1);
    OneStep(s, e, [Read(id), Drop(id)], t);
  }

  /** And only then: a move that does not start clear can go on to lose both names. */
  lemma {:induction false} UnclearStartCanLose(s: State, e: Step)
    requires Kept(s) && Enabled(s, e) && Starts(s, e) && !Clear(s)
    ensures exists es :: Runs(s, [e] + es) && !After(s, [e] + es).native && !After(s, [e] + es).private
  {
    if id :| id in s.recoveries && s.recoveries[id].Decided? {
      DecidedCanLose(s, e, id);
    } else {
      var id :| id in s.recoveries;
      ObservedCanLose(s, e, id);
    }
  }

  // ---------------------------------------------------------------- recovery alone

  predicate RecoveryStep(e: Step) {
    e.Observe? || e.Read? || e.Drop? || e.Die?
  }

  /** After a crash with both names present, recoveries have dropped nothing, or all but the target. */
  ghost predicate Recovering(s: State, target: Name) {
    s.mover.Gone? && s.recorded == Some(target) && Has(s, target) && SparesTarget(s)
  }

  /** Recoveries after a crash, in any number and order, keep the target; the first to finish leaves it alone. */
  lemma {:induction false} RecoveryKeepsTarget(s: State, es: seq<Step>, target: Name)
    requires Recovering(s, target) && Runs(s, es)
    requires forall e :: e in es ==> RecoveryStep(e)
    ensures Recovering(After(s, es), target)
    ensures (exists e :: e in es && e.Drop?) ==> Only(After(s, es), target)
    ensures Only(s, target) ==> Only(After(s, es), target)
    decreases |es|
  {
    if es != [] {
      assert RecoveryStep(es[0]);
      var t := Apply(s, es[0]);
      assert Recovering(t, target);
      RecoveryKeepsTarget(t, es[1..], target);
      assert es == [es[0]] + es[1..];
    }
  }

  /** A crash between link and unlink is completed to the recorded target by one recovery. */
  lemma {:induction false} CrashedMoveCompletes(s: State, id: nat)
    requires Kept(s) && s.mover.Linked? && Has(s, s.mover.at) && s.recoveries == map[]
    ensures var es := [Crash, Observe(id), Read(id), Drop(id), Reopen];
            Runs(s, es) && After(s, es).mover == Ready(s.mover.to, Nothing) && Only(After(s, es), s.mover.to)
  {
    var s1 := Apply(s, Crash);
    var s2 := Apply(s1, Observe(id));
    var s3 := Apply(s2, Read(id));
    var s4 := Apply(s3, Drop(id));
    var s5 := Apply(s4, Reopen);
    OneStep(s4, Reopen, [], s5);
    OneStep(s3, Drop(id), [Reopen], s4);
    OneStep(s2, Read(id), [Drop(id), Reopen], s3);
    OneStep(s1, Observe(id), [Read(id), Drop(id), Reopen], s2);
    OneStep(s, Crash, [Observe(id), Read(id), Drop(id), Reopen], s1);
  }

  lemma {:induction false} OneStep(s: State, e: Step, es: seq<Step>, t: State)
    requires Enabled(s, e) && Apply(s, e) == t && Runs(t, es)
    ensures Runs(s, [e] + es) && After(s, [e] + es) == After(t, es)
  {
    assert ([e] + es)[1..] == es;
  }

  // --------------------------------------------------- a recovery spanning two moves

  /** A dense checkout under its native name, nothing under way. */
  const DENSE: State := State(true, false, None, false, Ready(Native, Nothing), map[])

  /** A recovery that decides during the first move and acts after the second. */
  const SPANNING: seq<Step> := [SetSparse, Link, Observe(0), Read(0), Unlink, Commit] + BACK

  const BACK: seq<Step> := [SetDense, Commit, Begin, Link, Unlink, Drop(0)]

  const BETWEEN: State := State(false, true, Some(Private), true, Ready(Private, Nothing), map[0 := Decided(Native)])

  lemma {:induction false} SecondMove()
    ensures Runs(BETWEEN, BACK) && !After(BETWEEN, BACK).native && !After(BETWEEN, BACK).private
  {
    var d := map[0 := Decided(Native)];
    var s1 := State(false, true, Some(Private), true, Ready(Private, ClearCone), d);
    var s2 := State(false, true, Some(Private), false, Ready(Private, GoNative(true)), d);
    var s3 := State(false, true, Some(Native), false, Recorded(Private, Native, Nothing), d);
    var s4 := State(true, true, Some(Native), false, Linked(Private, Native, Nothing), d);
    var s5 := State(true, false, Some(Native), false, Ready(Native, Nothing), d);
    var s6 := State(false, false, Some(Native), false, Ready(Native, Nothing), map[]);
    OneStep(s5, Drop(0), [], s6);
    OneStep(s4, Unlink, [Drop(0)], s5);
    OneStep(s3, Link, [Unlink, Drop(0)], s4);
    OneStep(s2, Begin, [Link, Unlink, Drop(0)], s3);
    OneStep(s1, Commit, [Begin, Link, Unlink, Drop(0)], s2);
    OneStep(BETWEEN, SetDense, [Commit, Begin, Link, Unlink, Drop(0)], s1);
  }

  const LINKED: State := State(true, true, Some(Private), false, Linked(Native, Private, StoreCone(Native)),
    map[0 := Observed])

  const REST: seq<Step> := [Read(0), Unlink, Commit] + BACK

  lemma {:induction false} LinkedToBetween(rest: seq<Step>)
    requires Runs(BETWEEN, rest)
    ensures var steps := [Read(0)] + ([Unlink] + ([Commit] + rest));
            Runs(LINKED, steps) && After(LINKED, steps) == After(BETWEEN, rest)
  {
    var d := map[0 := Decided(Native)];
    var s1 := LINKED.(recoveries := d);
    var s2 := State(false, true, Some(Private), false, Ready(Private, StoreCone(Native)), d);
    OneStep(s2, Commit, rest, BETWEEN);
    OneStep(s1, Unlink, [Commit] + rest, s2);
    OneStep(LINKED, Read(0), [Unlink] + ([Commit] + rest), s1);
  }

  lemma {:induction false} FirstMoveEnds()
    ensures Runs(BETWEEN, BACK) && Runs(LINKED, REST) && After(LINKED, REST) == After(BETWEEN, BACK)
  {
    SecondMove();
    LinkedToBetween(BACK);
    assert REST == [Read(0)] + ([Unlink] + ([Commit] + BACK));
  }

  lemma {:induction false} DenseToLinked(rest: seq<Step>)
    requires Runs(LINKED, rest)
    ensures var steps := [SetSparse] + ([Link] + ([Observe(0)] + rest));
            Runs(DENSE, steps) && After(DENSE, steps) == After(LINKED, rest)
  {
    var s1 := State(true, false, Some(Private), false, Recorded(Native, Private, StoreCone(Native)), map[]);
    var s2 := LINKED.(recoveries := map[]);
    OneStep(s2, Observe(0), rest, LINKED);
    OneStep(s1, Link, [Observe(0)] + rest, s2);
    OneStep(DENSE, SetSparse, [Link] + ([Observe(0)] + rest), s1);
  }

  lemma {:induction false} FirstMoveBegins()
    ensures Runs(LINKED, REST) && Runs(DENSE, SPANNING) && After(DENSE, SPANNING) == After(LINKED, REST)
  {
    FirstMoveEnds();
    DenseToLinked(REST);
    assert SPANNING == [SetSparse] + ([Link] + ([Observe(0)] + REST));
  }

  /** If a move starts before an earlier move's recovery is done, the database can lose both names. */
  lemma {:induction false} SpanningRecoveryLosesBoth()
    ensures Guarded(DENSE) && Kept(DENSE) && Runs(DENSE, SPANNING) && !Unmixed(DENSE, SPANNING)
    ensures !After(DENSE, SPANNING).native && !After(DENSE, SPANNING).private
  {
    FirstMoveBegins();
    FirstMoveEnds();
    SecondMove();
    if Unmixed(DENSE, SPANNING) {
      NameRemains(DENSE, SPANNING);
    }
  }
}
