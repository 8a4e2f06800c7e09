/** Receipts and the transactions that make their rows. A receipt remembers the
    rcvfrom row made for it; a transaction or savepoint that rolls back takes rows
    away, and the receipts that made them must forget them then, and no others. */
module Receipts {

  class Receipt {
    /** The row made for this receipt, 0 before one is or once it is undone. */
    var rcvid: nat

    constructor ()
      ensures rcvid == 0
    {
      rcvid := 0;
    }
  }

  /** A receipt whose row a transaction made at savepoint depth level and has not yet
      committed. */
  datatype Made = Made(rc: Receipt, level: nat)

  /** The rcvfrom table: each row with the receipt that made it. */
  type Rows = map<nat, Receipt>

  ghost predicate Within(a: Rows, b: Rows) {
    forall id :: id in a ==> id in b && b[id] == a[id]
  }

  /** What a script of a transaction does. Nested is a WithTx, WithBoundTx or
      WithSavepoint on the transaction, whose statements and function fail or not
      whatever happens inside it. */
  datatype Op =
    | Use(rc: Receipt)
    | StoreContent(refused: bool)
    | Make(rc: Receipt, refused: bool)
    | Nested(body: seq<Op>, ending: SavepointEnding)

  /** How a savepoint ends: its SAVEPOINT fails and nothing runs, its function fails, its
      RELEASE fails, or none does. */
  datatype SavepointEnding = OpenFails | BodyFails | ReleaseFails | Passes

  ghost predicate OpsIn(ops: seq<Op>, world: set<Receipt>) {
    forall k :: 0 <= k < |ops| ==> OpIn(ops[k], world)
  }

  ghost predicate OpIn(op: Op, world: set<Receipt>) {
    match op
    case Use(rc) => rc in world
    case StoreContent(_) => true
    case Make(rc, _) => rc in world
    case Nested(body, _) => OpsIn(body, world)
  }

  lemma {:induction false} OpInMore(op: Op, world: set<Receipt>, more: set<Receipt>)
    requires OpIn(op, world) && world <= more
    ensures OpIn(op, more)
    decreases op, 1
  {
    if op.Nested? {
      OpsInMore(op.body, world, more);
    }
  }

  lemma {:induction false} OpsInMore(ops: seq<Op>, world: set<Receipt>, more: set<Receipt>)
    requires OpsIn(ops, world) && world <= more
    ensures OpsIn(ops, more)
    decreases ops, 0
  {
    forall k | 0 <= k < |ops| ensures OpIn(ops[k], more) {
      OpInMore(ops[k], world, more);
    }
  }

  // ----- what a script makes

  /** Whose rows content is stored under: the receipt the transaction was given, or one of its own. */
  datatype Using = Given(rc: Receipt) | Own

  function InUse(rc: Receipt?): Using {
    if rc == null then Own else Given(rc)
  }

  /** What is in use after the script. A savepoint that fails does not give back what was. */
  ghost function UsingAfter(ops: seq<Op>, u: Using): Using
    decreases ops, 0
  {
    if ops == [] then u else UsingAfter(ops[1..], UsingNext(ops[0], u))
  }

  ghost function UsingNext(op: Op, u: Using): Using
    decreases op, 1
  {
    match op
    case Use(rc) => Given(rc)
    case Nested(body, ending) => if ending == OpenFails then u else UsingAfter(body, u)
    case _ => u
  }

  /** The script makes who's row and keeps it: something in it stores under who or makes it
      and is not refused, and no savepoint around that fails. */
  ghost predicate Makes(ops: seq<Op>, u: Using, who: Using)
    decreases ops, 0
  {
    ops != [] && (MakesNow(ops[0], u, who) || Makes(ops[1..], UsingNext(ops[0], u), who))
  }

  ghost predicate MakesNow(op: Op, u: Using, who: Using)
    decreases op, 1
  {
    match op
    case Use(_) => false
    case StoreContent(refused) => !refused && who == u
    case Make(rc, refused) => !refused && who == Given(rc)
    case Nested(body, ending) => ending == Passes && Makes(body, u, who)
  }

  lemma {:induction false} Sequenced(a: seq<Op>, b: seq<Op>, u: Using, who: Using)
    ensures UsingAfter(a + b, u) == UsingAfter(b, UsingAfter(a, u))
    ensures Makes(a + b, u, who) <==> Makes(a, u, who) || Makes(b, UsingAfter(a, u), who)
    decreases a
  {
    if a == [] {
      assert a + b == b;
    } else {
      assert (a + b)[0] == a[0] && (a + b)[1..] == a[1..] + b;
      Sequenced(a[1..], b, UsingNext(a[0], u), who);
    }
  }

  /** A savepoint that passes makes what its script makes in its place. */
  lemma {:induction false} PassesInPlace(a: seq<Op>, body: seq<Op>, b: seq<Op>, u: Using, who: Using)
    ensures Makes(a + [Nested(body, Passes)] + b, u, who) <==> Makes(a + body + b, u, who)
    ensures UsingAfter(a + [Nested(body, Passes)] + b, u) == UsingAfter(a + body + b, u)
  {
    var one := [Nested(body, Passes)];
    var v := UsingAfter(a, u);
    assert one[1..] == [] && UsingAfter(one, v) == UsingNext(one[0], v);
    assert Makes(one, v, who) <==> MakesNow(one[0], v, who);
    Sequenced(a + one, b, u, who);
    Sequenced(a, one, u, who);
    Sequenced(a + body, b, u, who);
    Sequenced(a, body, u, who);
  }

  /** Own, told by the receipt that it turned out to be. */
  function Named(u: Using, own: Receipt): Using {
    if u == Own then Given(own) else u
  }

  /** A script that does not know the transaction's own receipt does alike whether it is there already or not. */
  lemma {:induction false} OwnNamed(ops: seq<Op>, known: set<Receipt>, own: Receipt, u: Using, who: Using)
    requires OpsIn(ops, known) && own !in known
    requires (u.Given? ==> u.rc in known) && (who.Given? ==> who.rc in known)
    ensures UsingAfter(ops, u).Given? ==> UsingAfter(ops, u).rc in known
    ensures UsingAfter(ops, Named(u, own)) == Named(UsingAfter(ops, u), own)
    ensures Makes(ops, Named(u, own), Named(who, own)) <==> Makes(ops, u, who)
    decreases ops, 0
  {
    if ops != [] {
      assert OpIn(ops[0], known);
      NextNamed(ops[0], known, own, u, who);
      OwnNamed(ops[1..], known, own, UsingNext(ops[0], u), who);
    }
  }

  lemma {:induction false} NextNamed(op: Op, known: set<Receipt>, own: Receipt, u: Using, who: Using)
    requires OpIn(op, known) && own !in known
    requires (u.Given? ==> u.rc in known) && (who.Given? ==> who.rc in known)
    ensures UsingNext(op, u).Given? ==> UsingNext(op, u).rc in known
    ensures UsingNext(op, Named(u, own)) == Named(UsingNext(op, u), own)
    ensures MakesNow(op, Named(u, own), Named(who, own)) <==> MakesNow(op, u, who)
    decreases op, 1
  {
    if op.Nested? {
      OwnNamed(op.body, known, own, u, who);
    }
  }

  lemma {:induction false} GivenNeverOwn(ops: seq<Op>, u: Using)
    requires u.Given?
    ensures UsingAfter(ops, u).Given? && !Makes(ops, u, Own)
    decreases ops, 0
  {
    if ops != [] {
      if ops[0].Nested? {
        GivenNeverOwn(ops[0].body, u);
      }
      GivenNeverOwn(ops[1..], UsingNext(ops[0], u));
    }
  }

  /** What running a script under u does to the receipts there are, known, and to those of
      them that hold an id: the ones it makes hold one too, the others as before. One more
      receipt, the transaction's own, may have come to be. */
  ghost predicate Effects(
    ops: seq<Op>, u: Using, known: set<Receipt>, holding: set<Receipt>,
    known': set<Receipt>, holding': set<Receipt>, rc': Receipt?)
  {
    && known <= known' && holding' <= known'
    && (forall rc :: rc in known ==> (rc in holding' <==> rc in holding || Makes(ops, u, Given(rc))))
    && (forall rc :: rc in known' && rc !in known ==>
          u == Own && known' == known + {rc}
          && (rc in holding' <==> Makes(ops, Own, Own)) && InUse(rc') == Named(UsingAfter(ops, u), rc))
    && (known' == known ==> InUse(rc') == UsingAfter(ops, u) && !Makes(ops, u, Own))
  }

  lemma {:induction false} EffectsCompose(
    a: seq<Op>, b: seq<Op>, u: Using, k0: set<Receipt>, h0: set<Receipt>,
    k1: set<Receipt>, h1: set<Receipt>, r1: Receipt?, k2: set<Receipt>, h2: set<Receipt>, r2: Receipt?)
    requires OpsIn(a, k0) && OpsIn(b, k0) && (u.Given? ==> u.rc in k0)
    requires Effects(a, u, k0, h0, k1, h1, r1) && Effects(b, InUse(r1), k1, h1, k2, h2, r2)
    ensures Effects(a + b, u, k0, h0, k2, h2, r2)
  {
    forall who: Using ensures Makes(a + b, u, who) <==> Makes(a, u, who) || Makes(b, UsingAfter(a, u), who) {
      Sequenced(a, b, u, who);
    }
    Sequenced(a, b, u, Own);
    if k1 == k0 {
      if u.Given? {
        GivenNeverOwn(a, u);
      }
    } else {
      var own :| own in k1 && own !in k0;
      OwnKnown(a, b, k0, own, r1);
      GivenNeverOwn(b, InUse(r1));
    }
  }

  /** What follows does with the own receipt, once it is there, what it would do without it. */
  lemma {:induction false} OwnKnown(a: seq<Op>, b: seq<Op>, known: set<Receipt>, own: Receipt, rc: Receipt?)
    requires OpsIn(a, known) && OpsIn(b, known) && own !in known
    requires InUse(rc) == Named(UsingAfter(a, Own), own)
    ensures InUse(rc).Given?
    ensures forall r :: r in known ==> (Makes(b, InUse(rc), Given(r)) <==> Makes(b, UsingAfter(a, Own), Given(r)))
    ensures Makes(b, InUse(rc), Given(own)) <==> Makes(b, UsingAfter(a, Own), Own)
    ensures UsingAfter(b, InUse(rc)) == Named(UsingAfter(b, UsingAfter(a, Own)), own)
  {
    var v := UsingAfter(a, Own);
    OwnNamed(a, known, own, Own, Own);
    OwnNamed(b, known, own, v, Own);
    forall r | r in known ensures Makes(b, InUse(rc), Given(r)) <==> Makes(b, v, Given(r)) {
      OwnNamed(b, known, own, v, Given(r));
      assert Named(Given(r), own) == Given(r);
    }
  }

  lemma {:induction false} OneEffect(op: Op, u: Using, who: Using)
    ensures UsingAfter([op], u) == UsingNext(op, u)
    ensures Makes([op], u, who) <==> MakesNow(op, u, who)
  {
    assert [op][1..] == [];
  }

  lemma {:induction false} NotOpened(body: seq<Op>, u: Using)
    ensures UsingAfter([Nested(body, OpenFails)], u) == u
    ensures forall who: Using :: !Makes([Nested(body, OpenFails)], u, who)
  {
    OneEffect(Nested(body, OpenFails), u, Own);
    forall who: Using ensures !Makes([Nested(body, OpenFails)], u, who) {
      OneEffect(Nested(body, OpenFails), u, who);
    }
  }

  lemma {:induction false} StoreEffects(
    refused: bool, rc: Receipt?, known: set<Receipt>, holding: set<Receipt>, known': set<Receipt>,
    holding': set<Receipt>, rc': Receipt)
    requires holding <= known && (rc != null ==> rc in known)
    requires if rc != null then known' == known && rc' == rc else rc' !in known && known' == known + {rc'}
    requires holding' == if refused then holding else holding + {rc'}
    ensures Effects([StoreContent(refused)], InUse(rc), known, holding, known', holding', rc')
  {
    forall who: Using ensures Makes([StoreContent(refused)], InUse(rc), who) <==> !refused && who == InUse(rc) {
      OneEffect(StoreContent(refused), InUse(rc), who);
    }
    OneEffect(StoreContent(refused), InUse(rc), Own);
  }

  lemma {:induction false} MakeEffects(
    rc: Receipt, refused: bool, used: Receipt?, known: set<Receipt>, holding: set<Receipt>, holding': set<Receipt>)
    requires holding <= known && rc in known
    requires holding' == if refused then holding else holding + {rc}
    ensures Effects([Make(rc, refused)], InUse(used), known, holding, known, holding', used)
  {
    forall who: Using ensures Makes([Make(rc, refused)], InUse(used), who) <==> !refused && who == Given(rc) {
      OneEffect(Make(rc, refused), InUse(used), who);
    }
    OneEffect(Make(rc, refused), InUse(used), Own);
  }

  /** What a transaction that is given no receipt comes to. */
  ghost predicate Outcome(
    body: seq<Op>, known: set<Receipt>, holding: set<Receipt>, known': set<Receipt>, holding': set<Receipt>)
  {
    && (forall rc :: rc in known ==> (rc in holding' <==> rc in holding || Makes(body, Own, Given(rc))))
    && ((exists rc :: rc in holding' && rc !in known) <==> Makes(body, Own, Own))
    && (forall a, b :: a in known' && a !in known && b in known' && b !in known ==> a == b)
  }

  lemma {:induction false} OwnOutcome(
    body: seq<Op>, known: set<Receipt>, holding: set<Receipt>, known': set<Receipt>, holding': set<Receipt>,
    rc: Receipt?)
    requires Effects(body, Own, known, holding, known', holding', rc)
    ensures Outcome(body, known, holding, known', holding')
  {
    if known' != known {
      var own :| own in known' && own !in known;
    }
  }

  /** What running in a savepoint comes to: what the script does if the savepoint passes, and
      else no more than the receipt that is left in use. */
  lemma {:induction false} NestedEffects(
    body: seq<Op>, ending: SavepointEnding, u: Using, known: set<Receipt>, holding: set<Receipt>,
    known': set<Receipt>, holding': set<Receipt>, rc': Receipt?)
    requires Effects(body, u, known, holding, known', holding', rc') && holding <= known && ending != OpenFails
    ensures Effects([Nested(body, ending)], u, known, holding, known',
              if ending == Passes then holding' else holding, rc')
  {
    forall who: Using ensures Makes([Nested(body, ending)], u, who) <==> ending == Passes && Makes(body, u, who) {
      OneEffect(Nested(body, ending), u, who);
    }
    OneEffect(Nested(body, ending), u, Own);
  }

  // ----- the list of made receipts

  ghost predicate DistinctReceipts(made: seq<Made>) {
    forall i, j :: 0 <= i < j < |made| ==> made[i].rc != made[j].rc
  }

  function Kept(made: seq<Made>, level: nat): (kept: seq<Made>)
    ensures forall m {:trigger m in kept} :: m in kept ==> m in made && m.level < level
    ensures forall m {:trigger m in kept} :: m in made && m.level < level ==> m in kept
  {
    if made == [] then []
    else
      var rest := Kept(made[..|made| - 1], level);
      var last := made[|made| - 1];
      if last.level < level then rest + [last] else rest
  }

  /** Every entry at level moved to the enclosing depth. */
  function MovedUp(made: seq<Made>, level: nat): (moved: seq<Made>)
    requires level > 0
    ensures |moved| == |made|
    ensures forall k :: 0 <= k < |made| ==> moved[k].rc == made[k].rc
    ensures forall k :: 0 <= k < |made| ==>
              moved[k].level == if made[k].level == level then level - 1 else made[k].level
  {
    seq(|made|, k requires 0 <= k < |made| =>
      if made[k].level == level then made[k].(level := level - 1) else made[k])
  }

  lemma {:induction false} KeptDistinct(made: seq<Made>, level: nat)
    requires DistinctReceipts(made)
    ensures DistinctReceipts(Kept(made, level))
  {
    if made != [] {
      KeptDistinct(made[..|made| - 1], level);
      var rest := Kept(made[..|made| - 1], level);
      forall m | m in rest ensures m.rc != made[|made| - 1].rc {
        assert m in made[..|made| - 1];
      }
    }
  }

  lemma {:induction false} KeptAll(made: seq<Made>, level: nat)
    requires forall m :: m in made ==> m.level < level
    ensures Kept(made, level) == made
  {
    if made != [] {
      KeptAll(made[..|made| - 1], level);
      assert made == made[..|made| - 1] + [made[|made| - 1]];
    }
  }

  lemma {:induction false} KeptKept(made: seq<Made>, a: nat, b: nat)
    requires b <= a
    ensures Kept(Kept(made, a), b) == Kept(made, b)
  {
    if made != [] {
      var init := made[..|made| - 1];
      KeptKept(init, a, b);
      if made[|made| - 1].level < a {
        KeptSnoc(Kept(init, a), made[|made| - 1], b);
      }
    }
  }

  lemma {:induction false} KeptSnoc(made: seq<Made>, m: Made, level: nat)
    ensures Kept(made + [m], level) == if m.level < level then Kept(made, level) + [m] else Kept(made, level)
  {
    assert (made + [m])[..|made|] == made;
  }

  /** Moving entries up to the depth above touches none of the depths above that. */
  lemma {:induction false} KeptMoved(made: seq<Made>, level: nat)
    requires level > 0
    ensures Kept(MovedUp(made, level), level - 1) == Kept(made, level - 1)
  {
    if made != [] {
      var init, last := made[..|made| - 1], made[|made| - 1];
      KeptMoved(init, level);
      var moved := MovedUp(made, level);
      assert moved[..|moved| - 1] == MovedUp(init, level);
    }
  }

  lemma {:induction false} ReleasedDistinct(made: seq<Made>, level: nat)
    requires DistinctReceipts(made) && level > 0
    ensures DistinctReceipts(MovedUp(made, level))
  {
  }

  lemma {:induction false} ReleaseKeeps(ran: seq<Made>, before: seq<Made>, level: nat)
    requires level > 0 && Kept(ran, level) == before
    ensures Kept(MovedUp(ran, level), level - 1) == Kept(before, level - 1)
  {
    KeptMoved(ran, level);
    KeptKept(ran, level, level - 1);
  }

  lemma {:induction false} FreshId(rows: Rows)
    ensures exists id: nat :: id > 0 && id !in rows
  {
    var top := UpperBound(rows.Keys);
    assert top + 1 !in rows;
  }

  ghost function UpperBound(ids: set<nat>): (top: nat)
    ensures forall id :: id in ids ==> id <= top
  {
    if ids == {} then 0
    else
      var id :| id in ids;
      var top := UpperBound(ids - {id});
      assert ids == ids - {id} + {id};
      if id > top then id else top
  }

  class Tx {
    /** The table as the transaction sees it. */
    var rows: Rows
    /** The table as it was when the transaction began and as each open savepoint was
        opened: what a rollback to that depth brings back. */
    var marks: seq<Rows>
    var savepoints: nat
    var receipt: Receipt?
    var made: seq<Made>
    /** Every receipt there is. */
    ghost var world: set<Receipt>

    /** The ids that receipts hold are those of their rows: a receipt's id names a row
        that is there and that it made, and the maker of a row holds its id. */
    ghost predicate IdsTrue()
      reads this, world
    {
      IdsTrueIn(rows)
    }

    ghost predicate IdsTrueIn(table: Rows)
      reads this, world
    {
      && (forall rc :: rc in world && rc.rcvid != 0 ==> rc.rcvid in table && table[rc.rcvid] == rc)
      && (forall id :: id in table && table[id] in world ==> table[id].rcvid == id)
    }

    ghost predicate MadeRow(rc: Receipt)
      reads this
    {
      exists m :: m in made && m.rc == rc
    }

    ghost predicate MarksNested()
      reads this
    {
      && |marks| == savepoints + 1
      && (forall l :: 0 <= l < |marks| ==> Within(marks[l], rows))
      && (forall l, l' :: 0 <= l <= l' < |marks| ==> Within(marks[l], marks[l']))
    }

    /** The level of an entry says which marks were taken before its row was made. */
    ghost predicate LevelsTrue()
      reads this, world
      requires |marks| == savepoints + 1
    {
      && DistinctReceipts(made)
      && (forall m :: m in made ==> m.rc in world && m.rc.rcvid != 0 && m.level <= savepoints)
      && (forall m, l :: m in made && 0 <= l <= savepoints ==> (m.rc.rcvid in marks[l] <==> m.level < l))
      && (forall rc :: rc in world && rc.rcvid != 0 && !MadeRow(rc) ==> rc.rcvid in marks[0])
    }

    ghost predicate Valid()
      reads this, world
    {
      && MarksNested() && IdsTrue() && LevelsTrue()
      && 0 !in rows
      && (receipt != null ==> receipt in world)
    }

    constructor (rows: Rows, ghost world: set<Receipt>)
      requires 0 !in rows
      requires forall rc :: rc in world && rc.rcvid != 0 ==> rc.rcvid in rows && rows[rc.rcvid] == rc
      requires forall id :: id in rows && rows[id] in world ==> rows[id].rcvid == id
      ensures Valid()
      ensures this.rows == rows && marks == [rows] && savepoints == 0 && made == []
      ensures this.world == world && receipt == null
    {
      this.rows, this.marks, this.savepoints := rows, [rows], 0;
      this.receipt, this.made, this.world := null, [], world;
    }

    /** Undoes the receipts whose rows were made at depth level or deeper. */
    method ForgetFrom(level: nat)
      requires DistinctReceipts(made)
      modifies this`made, set m | m in made :: m.rc
      ensures made == Kept(old(made), level)
      ensures forall m :: m in old(made) ==> m.rc.rcvid == if m.level >= level then 0 else old(m.rc.rcvid)
    {
      var kept: seq<Made> := [];
      var i := 0;
      while i < |made|
        invariant 0 <= i <= |made| && made == old(made)
        invariant kept == Kept(made[..i], level)
        invariant forall k :: 0 <= k < |made| ==>
          made[k].rc.rcvid == if k < i && made[k].level >= level then 0 else old(made[k].rc.rcvid)
      {
        var m := made[i];
        assert made[..i + 1][..i] == made[..i];
        if m.level >= level {
          m.rc.rcvid := 0;
        } else {
          kept := kept + [m];
        }
        i := i + 1;
      }
      assert made[..i] == made;
      made := kept;
    }

    /** Moves the receipts made at depth level to the enclosing depth. */
    method KeepTo(level: nat)
      requires level > 0
      modifies this`made
      ensures made == MovedUp(old(made), level)
    {
      var i := 0;
      while i < |made|
        invariant 0 <= i <= |made| == |old(made)|
        invariant forall k :: 0 <= k < i ==> made[k] == MovedUp(old(made), level)[k]
        invariant forall k :: i <= k < |made| ==> made[k] == old(made)[k]
      {
        if made[i].level == level {
          made := made[i := made[i].(level := level - 1)];
        }
        i := i + 1;
      }
    }
  
    /** Rolls back to the innermost depth: the table is again what it was, and exactly
        the receipts whose rows are gone have forgotten them. */
    method UndoTo(level: nat)
      requires Valid() && level == savepoints
      modifies this`rows, this`made, world
      ensures Valid()
      ensures rows == marks[level] && made == Kept(old(made), level)
      ensures forall rc :: rc in world ==> rc.rcvid == if old(rc.rcvid) in rows then old(rc.rcvid) else 0
    {
      KeptDistinct(made, level);
      ForgetFrom(level);
      Forgotten(level);
      ForgottenLevels(level);
      RestoreMark(level);
    }

    /** The table goes back to the innermost mark. */
    method RestoreMark(level: nat)
      requires level == savepoints && MarksNested() && LevelsTrue()
      requires 0 !in rows && (receipt != null ==> receipt in world)
      requires IdsTrueIn(marks[level])
      modifies this`rows
      ensures Valid() && rows == marks[level]
    {
      rows := marks[level];
      assert Within(marks[level], marks[level]);
    }

    /** The receipts whose rows the forgetting is about have lost their ids, the others not. */
    twostate predicate Forgot(level: nat)
      reads this, world
    {
      && old(Valid()) && level == savepoints == old(savepoints)
      && marks == old(marks) && world == old(world) && rows == old(rows)
      && (forall m :: m in old(made) ==> m.rc.rcvid == if m.level >= level then 0 else old(m.rc.rcvid))
      && (forall rc :: rc in world && !old(MadeRow(rc)) ==> rc.rcvid == old(rc.rcvid))
    }

    /** Forgetting from the innermost depth takes ids from exactly the receipts whose rows
        are newer than its mark. */
    twostate lemma Forgotten(level: nat)
      requires Forgot(level)
      ensures forall rc :: rc in world ==> rc.rcvid == if old(rc.rcvid) in marks[level] then old(rc.rcvid) else 0
      ensures IdsTrueIn(marks[level])
    {
      assert Within(marks[0], marks[level]) && Within(marks[level], rows);
      forall rc | rc in world ensures rc.rcvid == if old(rc.rcvid) in marks[level] then old(rc.rcvid) else 0 {
        if m :| m in old(made) && m.rc == rc {
        }
      }
    }

    twostate lemma ForgottenLevels(level: nat)
      requires Forgot(level) && made == Kept(old(made), level) && DistinctReceipts(made)
      ensures LevelsTrue()
    {
      forall rc | rc in world && rc.rcvid != 0 && !MadeRow(rc) ensures rc.rcvid in marks[0] {
        if m :| m in old(made) && m.rc == rc {
        }
      }
    }

    /** Releases the innermost savepoint: its rows now share the fate of the enclosing
        depth. */
    method Release(level: nat)
      requires Valid() && level == savepoints > 0
      modifies this`made, this`marks, this`savepoints
      ensures Valid()
      ensures marks == old(marks)[..level] && savepoints == level - 1
      ensures made == MovedUp(old(made), level) && Kept(made, level - 1) == Kept(old(made), level - 1)
    {
      KeptMoved(made, level);
      KeepTo(level);
      marks := marks[..level];
      savepoints := savepoints - 1;
      ReleasedLevels(level);
    }

    /** A row made at the released depth was made after every mark that is left. */
    twostate lemma ReleasedLevels(level: nat)
      requires old(Valid()) && level == old(savepoints) > 0 && savepoints == level - 1
      requires marks == old(marks)[..level] && world == old(world) && made == MovedUp(old(made), level)
      requires forall rc :: rc in world ==> rc.rcvid == old(rc.rcvid)
      ensures LevelsTrue()
    {
      ghost var was := old(made);
      forall m | m in made
        ensures m.rc in world && m.rc.rcvid != 0 && m.level <= savepoints
        ensures forall l :: 0 <= l <= savepoints ==> (m.rc.rcvid in marks[l] <==> m.level < l)
      {
        var k :| 0 <= k < |made| && made[k] == m;
        assert was[k] in was && was[k].rc == m.rc;
      }
      forall rc | rc in world && rc.rcvid != 0 && !MadeRow(rc) ensures rc.rcvid in marks[0] {
        assert forall k {:trigger was[k]} :: 0 <= k < |was| ==> made[k] in made && was[k].rc != rc;
      }
      ReleasedDistinct(was, level);
    }
  
    /** What work in the transaction keeps: the marks, the rows there were, the ids
        held and, of the receipts made, those of the enclosing depths. */
    twostate predicate Extends()
      reads this, world
    {
      && marks == old(marks) && savepoints == old(savepoints)
      && Within(old(rows), rows)
      && old(world) <= world && fresh(world - old(world))
      && (forall rc :: rc in old(world) && old(rc.rcvid) != 0 ==> rc.rcvid == old(rc.rcvid))
      && Kept(made, savepoints) == Kept(old(made), savepoints)
    }

    /** The receipts that hold an id. */
    ghost function Holding(): set<Receipt>
      reads this`world, world
    {
      set rc | rc in world && rc.rcvid != 0
    }

    /** Exactly the receipts that the script makes rows for hold an id now, besides those
        that did, and every new row is one of theirs. */
    twostate predicate Did(ops: seq<Op>)
      reads this`world, this`rows, this`receipt, world
    {
      && Effects(ops, InUse(old(receipt)), old(world), old(Holding()), world, Holding(), receipt)
      && forall id :: id in rows && id !in old(rows) ==> rows[id] in world
    }

    /** The id of the receipt's row, made now if it has none. */
    method ID(rc: Receipt, refused: bool) returns (id: nat, ok: bool)
      requires Valid() && rc in world
      modifies this`rows, this`made, rc
      ensures Valid() && Extends() && world == old(world)
      ensures ok ==> id != 0 && id == rc.rcvid && id in rows && rows[id] == rc
      ensures ok <==> old(rc.rcvid) != 0 || !refused
      ensures !ok ==> rows == old(rows) && made == old(made) && rc.rcvid == 0
      ensures forall id :: id in rows && id !in old(rows) ==> rows[id] == rc
      ensures Holding() == if refused then old(Holding()) else old(Holding()) + {rc}
    {
      if rc.rcvid != 0 {
        return rc.rcvid, true;
      }
      if refused {
        return 0, false;
      }
      FreshId(rows);
      id :| id > 0 && id !in rows;
      ok := true;
      InsertRow(rc, id);
      KeptSnoc(old(made), Made(rc, savepoints), savepoints);
    }

    /** The insert that makes the receipt's row. */
    method InsertRow(rc: Receipt, id: nat)
      requires Valid() && rc in world && rc.rcvid == 0 && id > 0 && id !in rows
      modifies this`rows, this`made, rc
      ensures Valid()
      ensures rows == old(rows)[id := rc] && rc.rcvid == id && made == old(made) + [Made(rc, savepoints)]
      ensures Holding() == old(Holding()) + {rc}
    {
      rows := rows[id := rc];
      rc.rcvid := id;
      made := made + [Made(rc, savepoints)];
      assert old(made) <= made && Made(rc, savepoints) in made;
    }

    /** The id content stored in the transaction is recorded under. */
    method ReceiptID(refused: bool) returns (id: nat, ok: bool)
      requires Valid()
      modifies this`rows, this`made, this`receipt, this`world, world
      ensures Valid() && Extends() && receipt != null
      ensures old(receipt) != null ==> receipt == old(receipt)
      ensures ok ==> id != 0 && id == receipt.rcvid && id in rows && rows[id] == receipt
      ensures Did([StoreContent(refused)])
    {
      ghost var rc0, known, holding := receipt, world, Holding();
      TakeOwn();
      id, ok := ID(receipt, refused);
      StoreEffects(refused, rc0, known, holding, world, Holding(), receipt);
    }

    /** A transaction that was given no receipt makes one of its own. */
    method TakeOwn()
      requires Valid()
      modifies this`receipt, this`world
      ensures Valid() && Extends() && receipt != null && Holding() == old(Holding())
      ensures if old(receipt) != null then receipt == old(receipt) && world == old(world)
              else receipt !in old(world) && world == old(world) + {receipt}
    {
      if receipt == null {
        var rc := new Receipt();
        receipt := rc;
        world := world + {rc};
      }
    }

    /** Runs a script. */
    method Run(ops: seq<Op>)
      requires Valid() && OpsIn(ops, world)
      modifies this, world
      ensures Valid() && Extends() && Did(ops)
      decreases ops, 0
    {
      if ops == [] {
        return;
      }
      var first, rest := ops[0], ops[1..];
      RunOne(first);
      ghost var k1, h1, r1, rows1 := world, Holding(), receipt, rows;
      OpsInMore(rest, old(world), world);
      Run(rest);
      assert [first] + rest == ops;
      EffectsCompose(
        [first], rest, InUse(old(receipt)), old(world), old(Holding()), k1, h1, r1, world, Holding(), receipt);
    }

    method RunOne(op: Op)
      requires Valid() && OpIn(op, world)
      modifies this, world
      ensures Valid() && Extends() && Did([op])
      decreases op, 1
    {
      match op
      case Use(rc) => UseReceipt(rc);
      case StoreContent(refused) => var _, _ := ReceiptID(refused);
      case Make(rc, refused) => MakeRow(rc, refused);
      case Nested(body, ending) => WithSavepoint(body, ending);
    }

    method UseReceipt(rc: Receipt)
      requires Valid() && rc in world
      modifies this`receipt
      ensures Valid() && receipt == rc && Did([Use(rc)])
    {
      forall who: Using ensures !Makes([Use(rc)], InUse(receipt), who) {
        OneEffect(Use(rc), InUse(receipt), who);
      }
      OneEffect(Use(rc), InUse(receipt), Own);
      receipt := rc;
    }

    method MakeRow(rc: Receipt, refused: bool)
      requires Valid() && rc in world
      modifies this`rows, this`made, rc
      ensures Valid() && Extends() && Did([Make(rc, refused)])
    {
      ghost var holding := Holding();
      var _, _ := ID(rc, refused);
      MakeEffects(rc, refused, receipt, world, holding, Holding());
    }

    /** Opens a savepoint. */
    method Open()
      requires Valid()
      modifies this`savepoints, this`marks
      ensures Valid()
      ensures savepoints == old(savepoints) + 1 && marks == old(marks) + [rows]
      ensures forall m :: m in made ==> m.level < savepoints
    {
      savepoints := savepoints + 1;
      marks := marks + [rows];
    }

    /** Closes a savepoint in which nothing is made. */
    method Pop(level: nat)
      requires Valid() && level == savepoints > 0
      requires forall m :: m in made ==> m.level < level
      modifies this`marks, this`savepoints
      ensures Valid()
      ensures marks == old(marks)[..level] && savepoints == level - 1
    {
      marks := marks[..level];
      savepoints := savepoints - 1;
    }

    /** Rolls back to the innermost savepoint and closes it. */
    method Abandon(level: nat)
      requires Valid() && level == savepoints > 0
      modifies this`rows, this`made, this`marks, this`savepoints, world
      ensures Valid()
      ensures marks == old(marks)[..level] && savepoints == level - 1
      ensures rows == old(marks)[level] && made == Kept(old(made), level)
      ensures forall rc :: rc in world ==> rc.rcvid == if old(rc.rcvid) in rows then old(rc.rcvid) else 0
    {
      UndoTo(level);
      Pop(level);
    }

    /** Opens a savepoint and runs a script in it. */
    method RunInside(body: seq<Op>)
      requires Valid() && OpsIn(body, world)
      modifies this, world
      ensures Valid()
      ensures savepoints == old(savepoints) + 1 && marks == old(marks) + [old(rows)]
      ensures Within(old(rows), rows)
      ensures old(world) <= world && fresh(world - old(world))
      ensures forall rc :: rc in old(world) && old(rc.rcvid) != 0 ==> rc.rcvid == old(rc.rcvid)
      ensures Kept(made, savepoints) == old(made)
      ensures Kept(made, old(savepoints)) == Kept(old(made), old(savepoints))
      ensures Did(body)
      decreases body, 1
    {
      Open();
      KeptAll(made, savepoints);
      Run(body);
      KeptKept(made, savepoints, old(savepoints));
    }

    method FailingSavepoint(body: seq<Op>, ghost ending: SavepointEnding)
      requires Valid() && OpsIn(body, world) && (ending == BodyFails || ending == ReleaseFails)
      modifies this, world
      ensures Valid() && Extends() && Did([Nested(body, ending)])
      ensures rows == old(rows) && made == old(made)
      ensures forall rc :: rc in old(world) ==> rc.rcvid == old(rc.rcvid)
      ensures forall rc :: rc in world - old(world) ==> rc.rcvid == 0
      decreases body, 2
    {
      RunInside(body);
      assert marks[..savepoints] == old(marks);
      assert forall rc :: rc in old(world) && rc.rcvid in old(rows) ==> rc.rcvid == old(rc.rcvid);
      NestedEffects(
        body, ending, InUse(old(receipt)), old(world), old(Holding()), world, Holding(), receipt);
      Abandon(savepoints);
    }

    method PassingSavepoint(body: seq<Op>)
      requires Valid() && OpsIn(body, world)
      modifies this, world
      ensures Valid() && Extends() && Did(body)
      decreases body, 2
    {
      RunInside(body);
      assert marks[..savepoints] == old(marks);
      Release(savepoints);
    }

    /** Runs a script in a savepoint. A failing one leaves the table, the list of made
        receipts and every receipt that there was as they were. */
    method WithSavepoint(body: seq<Op>, ending: SavepointEnding)
      requires Valid() && OpsIn(body, world)
      modifies this, world
      ensures Valid() && Extends() && Did([Nested(body, ending)])
      ensures ending != Passes ==> rows == old(rows) && made == old(made)
      ensures ending != Passes ==> forall rc :: rc in old(world) ==> rc.rcvid == old(rc.rcvid)
      ensures ending != Passes ==> forall rc :: rc in world - old(world) ==> rc.rcvid == 0
      ensures ending == OpenFails ==> world == old(world) && receipt == old(receipt)
      decreases body, 3
    {
      match ending
      case OpenFails => NotOpened(body, InUse(receipt));
      case Passes =>
        PassingSavepoint(body);
        NestedEffects(body, Passes, InUse(old(receipt)), old(world), old(Holding()), world, Holding(), receipt);
      case _ => FailingSavepoint(body, ending);
    }
  }

  /** How a transaction ends. */
  datatype Ending = BeginFails | FnFails | CommitFails | Commits

  class Database {
    /** The committed table. */
    var rows: Rows
    /** Transactions begun, and writes finished, committed or not. */
    var writeTxns: nat
    var writes: nat
    ghost var world: set<Receipt>

    ghost predicate Valid()
      reads this, world
    {
      && 0 !in rows
      && (forall rc :: rc in world && rc.rcvid != 0 ==> rc.rcvid in rows && rows[rc.rcvid] == rc)
      && (forall id :: id in rows && rows[id] in world ==> rows[id].rcvid == id)
    }

    ghost function Holding(): set<Receipt>
      reads this`world, world
    {
      set rc | rc in world && rc.rcvid != 0
    }

    /** Exactly the receipts that the script makes rows for hold an id now, besides those
        that did; a transaction given none makes one more if it stores. Every new row is
        one of theirs. */
    twostate predicate Committed(body: seq<Op>)
      reads this`rows, this`world, world
    {
      && Outcome(body, old(world), old(Holding()), world, Holding())
      && (forall id :: id in rows && id !in old(rows) ==> rows[id] in world && rows[id] in Holding())
    }

    /** Runs a script in a transaction. Between transactions, whatever the scripts did
        and however each of them ended, the ids that receipts hold are those of their
        committed rows; a transaction that does not commit changes neither the table
        nor any receipt. */
    method WithTx(body: seq<Op>, ending: Ending)
      requires Valid() && OpsIn(body, world)
      modifies this, world
      ensures Valid()
      ensures writes == old(writes) + 1 && writeTxns == old(writeTxns) + 1
      ensures old(world) <= world && fresh(world - old(world))
      ensures Within(old(rows), rows)
      ensures forall rc :: rc in old(world) && old(rc.rcvid) != 0 ==> rc.rcvid == old(rc.rcvid)
      ensures ending == Commits ==> Committed(body)
      ensures ending != Commits ==> rows == old(rows)
      ensures ending != Commits ==> forall rc :: rc in old(world) ==> rc.rcvid == old(rc.rcvid)
    {
      writeTxns := writeTxns + 1;
      if ending == Commits {
        RunAndCommit(body);
      } else if ending != BeginFails {
        RunAndRollBack(body);
      }
      writes := writes + 1;
    }

    method RunAndCommit(body: seq<Op>)
      requires Valid() && OpsIn(body, world)
      modifies this`rows, this`world, world
      ensures Valid() && old(world) <= world && fresh(world - old(world)) && Within(old(rows), rows)
      ensures forall rc :: rc in old(world) && old(rc.rcvid) != 0 ==> rc.rcvid == old(rc.rcvid)
      ensures Committed(body)
    {
      var tx := new Tx(rows, world);
      tx.Run(body);
      rows, world := tx.rows, tx.world;
      OwnOutcome(body, old(world), old(Holding()), world, Holding(), tx.receipt);
    }

    method RunAndRollBack(body: seq<Op>)
      requires Valid() && OpsIn(body, world)
      modifies this`world, world
      ensures Valid() && old(world) <= world && fresh(world - old(world)) && rows == old(rows)
      ensures forall rc :: rc in old(world) ==> rc.rcvid == old(rc.rcvid)
    {
      var tx := new Tx(rows, world);
      tx.Run(body);
      assert forall rc :: rc in old(world) && rc.rcvid in old(rows) ==> rc.rcvid == old(rc.rcvid);
      tx.UndoTo(0);
      world := tx.world;
    }

    /** The id of a receipt's row, made on the pool, whose writes commit as they run. */
    method ID(rc: Receipt, refused: bool) returns (id: nat, ok: bool)
      requires Valid() && rc in world
      modifies this`rows, this`writes, rc
      ensures Valid() && Within(old(rows), rows)
      ensures ok <==> old(rc.rcvid) != 0 || !refused
      ensures ok ==> id != 0 && id == rc.rcvid && id in rows && rows[id] == rc
      ensures old(rc.rcvid) != 0 || !ok ==> rows == old(rows) && rc.rcvid == old(rc.rcvid)
      ensures writes == old(writes) + if old(rc.rcvid) != 0 then 0 else 1
    {
      if rc.rcvid != 0 {
        return rc.rcvid, true;
      }
      writes := writes + 1;
      if refused {
        return 0, false;
      }
      FreshId(rows);
      id :| id > 0 && id !in rows;
      rows := rows[id := rc];
      rc.rcvid := id;
      ok := true;
    }
  }
}
