/** What the calls of the interlock come to: who holds which handle, and that a writer gets its own. */
module InterlockRuns {
  import opened Options
  import opened Interlock

  // ------------------------------------------------ handles and the moves

  datatype Holding =
    | Nothing
    | Handle(kind: Kind)   // a transaction of this kind
    | Parked               // a read-only handle after reset

  /** What an actor holds where it stands.  A writer has its transaction before
      the guard that goes with it. */
  function Held(p: Pc): Holding {
    match p
    case Enter(k) => if k.Reader? then Nothing else Handle(k)
    case Counted(k) => if k.Reader? then Nothing else Handle(k)
    case Retreat(k) => if k.Reader? then Nothing else Handle(k)
    case Backoff(k) => if k.Reader? then Nothing else Handle(k)
    case Active(k) => Handle(k)
    case Unlocking => Handle(TopWriter)
    case Inactive => Parked
    case Renewing => Parked
    case _ => Nothing
  }

  /** The last of the first n moves of the actor that entered or left the path of
      begin_rw_txn_generic or of a resize was the entry of a writer. */
  function AsWriter(moves: seq<Move>, n: nat, a: Id): bool
    requires n <= |moves|
  {
    if n == 0 then false
    else if moves[n - 1].actor != a then AsWriter(moves, n - 1, a)
    else
      match moves[n - 1].step
      case CallWriter => true
      case CallResize => false
      case _ => AsWriter(moves, n - 1, a)
  }

  /** What the actor holds by its own first n moves alone: the last mdb_txn_begin
      or mdb_txn_renew decides, up to the end of the transaction. */
  function Earned(moves: seq<Move>, n: nat, a: Id): Holding
    requires n <= |moves|
  {
    if n == 0 then Nothing
    else if moves[n - 1].actor != a then Earned(moves, n - 1, a)
    else
      match moves[n - 1].step
      case Begin(ok) => if ok then Handle(Reader) else Nothing
      case RenewDone(ok) => if ok then Handle(Reader) else Nothing
      case Leave(ok) => if ok && AsWriter(moves, n - 1, a) then Handle(TopWriter) else Nothing
      case Call(kind) => if kind.Nested? then Handle(kind) else Nothing
      case Reset => Parked
      case End => Nothing
      case _ => Earned(moves, n - 1, a)
  }

  predicate OnLockPath(p: Pc) { p.Locking? || p.Locked? || Blocks(p) }

  /** Between two calls, and inside one, what an actor stands for agrees with its moves. */
  ghost predicate Accounted(p: Pc, moves: seq<Move>, n: nat, a: Id)
    requires n <= |moves|
  {
    && Held(p) == Earned(moves, n, a)
    && (OnLockPath(p) ==> p.resume == AsWriter(moves, n, a))
  }

  /** What a move changes about what its actor holds. */
  lemma OwnMove(s: State, s': State, a: Id, step: Step)
    requires Next(s, s', a, step)
    ensures a in s.actors && a in s'.actors
    ensures var p, p' := s.actors[a], s'.actors[a];
            && (step.Leave? ==> OnLockPath(p))
            && Held(p') == (match step
                            case Begin(ok) => if ok then Handle(Reader) else Nothing
                            case RenewDone(ok) => if ok then Handle(Reader) else Nothing
                            case Leave(ok) => if ok && OnLockPath(p) && p.resume then Handle(TopWriter) else Nothing
                            case Call(kind) => if kind.Nested? then Handle(kind) else Nothing
                            case CallWriter => Nothing
                            case CallResize => Nothing
                            case Reset => Parked
                            case End => Nothing
                            case _ => Held(p))
            && (step.CallWriter? || step.CallResize? ==> Held(p) == Nothing)
            && (OnLockPath(p') ==>
                  if step.CallWriter? then p'.resume
                  else if step.CallResize? then !p'.resume
                  else OnLockPath(p) && p'.resume == p.resume)
  {
    hide Borrowed;
  }

  lemma OtherMove(s: State, s': State, b: Id, step: Step, a: Id)
    requires Next(s, s', b, step) && a != b && a in s.actors
    ensures a in s'.actors && s'.actors[a] == s.actors[a]
  {
    hide Borrowed;
  }

  lemma MoveAccounted(s: State, s': State, moves: seq<Move>, n: nat, a: Id)
    requires n < |moves| && Next(s, s', moves[n].actor, moves[n].step) && a in s.actors
    requires Accounted(s.actors[a], moves, n, a)
    ensures a in s'.actors && Accounted(s'.actors[a], moves, n + 1, a)
  {
    hide Next, Held, OnLockPath;
    if moves[n].actor == a {
      OwnMove(s, s', a, moves[n].step);
    } else {
      OtherMove(s, s', moves[n].actor, moves[n].step, a);
    }
  }

  /** In every run each actor holds exactly what its moves have earned: a handle
      from the begin or renew that succeeded until its end, and none after one
      that failed. */
  lemma {:induction false} HandlesAreEarned(run: seq<State>, moves: seq<Move>, i: nat, a: Id)
    requires IsRun(run, moves) && i < |run| && a in run[0].actors
    ensures a in run[i].actors && Accounted(run[i].actors[a], moves, i, a)
  {
    hide Next;
    if i > 0 {
      HandlesAreEarned(run, moves, i - 1, a);
      assert Next(run[i - 1], run[i - 1 + 1], moves[i - 1].actor, moves[i - 1].step);
      MoveAccounted(run[i - 1], run[i], moves, i - 1, a);
    }
  }

  // ------------------------------------------ a writer gets its transaction

  function RemapsBy(moves: seq<Move>, a: Id): nat {
    if |moves| == 0 then 0
    else
      var last := moves[|moves| - 1];
      RemapsBy(moves[..|moves| - 1], a) + if last == Move(a, Remap) then 1 else 0
  }

  /** Some continuation of s leads to s', with k remaps by the actor on the way. */
  ghost predicate Path(s: State, s': State, a: Id, k: nat) {
    exists ss: seq<State>, moves: seq<Move> ::
      Leads(ss, moves, s) && ss[|moves|] == s' && RemapsBy(moves, a) == k
  }

  lemma PathStart(s: State, a: Id)
    requires Inv(s)
    ensures Path(s, s, a, 0)
  {
    var moves: seq<Move> := [];
    assert Leads([s], moves, s) && [s][|moves|] == s;
  }

  lemma PathStep(s: State, s1: State, s2: State, a: Id, k: nat, actor: Id, step: Step)
    requires Path(s, s1, a, k) && Next(s1, s2, actor, step)
    ensures Path(s, s2, a, k + if Move(actor, step) == Move(a, Remap) then 1 else 0)
  {
    hide Next, Inv;
    var ss: seq<State>, moves: seq<Move> :|
      Leads(ss, moves, s) && ss[|moves|] == s1 && RemapsBy(moves, a) == k;
    var ss', moves' := ss + [s2], moves + [Move(actor, step)];
    forall i | 0 <= i < |moves'| ensures Next(ss'[i], ss'[i + 1], moves'[i].actor, moves'[i].step) {
      if i < |moves| {
        assert Next(ss[i], ss[i + 1], moves[i].actor, moves[i].step);
      }
    }
    assert moves'[..|moves|] == moves;
    assert Leads(ss', moves', s) && ss'[|moves'|] == s2;
  }

  /** A writer with the lock, after j remaps. */
  function WithLock(s: State, a: Id, j: nat): State
    requires a in s.actors
  {
    Put(s, a, Locked(true)).(lock := Some(a), remaps := s.remaps + j)
  }

  /** The writer maps the file anew once more. */
  lemma OneRemap(s0: State, s: State, a: Id, j: nat)
    requires a in s.actors && s.count == 0 && Path(s0, WithLock(s, a, j), a, j)
    ensures Path(s0, WithLock(s, a, j + 1), a, j + 1)
  {
    hide Path, Borrowed;
    var s1 := WithLock(s, a, j);
    var s2 := Put(s1, a, Draining(true)).(blockers := s1.blockers + 1);
    PathStep(s0, s1, s2, a, j, a, RaiseBlocker);
    var s3 := Put(s2, a, Drained(true));
    PathStep(s0, s2, s3, a, j, a, ReadCount);
    var s4 := Put(s3, a, Remapped(true)).(remaps := s3.remaps + 1);
    PathStep(s0, s3, s4, a, j, a, Remap);
    PathStep(s0, s4, WithLock(s, a, j + 1), a, j + 1, a, LowerBlocker);
  }

  lemma {:induction false} SomeRemaps(s0: State, s: State, a: Id, j: nat)
    requires a in s.actors && s.count == 0 && Path(s0, WithLock(s, a, 0), a, 0)
    ensures Path(s0, WithLock(s, a, j), a, j)
  {
    hide Path;
    if j > 0 {
      SomeRemaps(s0, s, a, j - 1);
      OneRemap(s0, s, a, j - 1);
    }
  }

  /** The writer's own mdb_txn_begin, its guard, and the return of the call. */
  lemma TakesHandle(s0: State, s: State, a: Id, k: nat) returns (s': State)
    requires Path(s0, s, a, k) && a in s.actors && s.actors[a] == Locked(true) && s.blockers == 0
    ensures Path(s0, s', a, k) && a in s'.actors && s'.actors[a] == Active(TopWriter) && s'.lock.None?
  {
    hide Path;
    var s1 := Put(s, a, Enter(TopWriter));
    PathStep(s0, s, s1, a, k, a, Leave(true));
    var s2 := Put(s1, a, Counted(TopWriter)).(count := s1.count + 1);
    PathStep(s0, s1, s2, a, k, a, Add);
    var s3 := Put(s2, a, Unlocking);
    PathStep(s0, s2, s3, a, k, a, ReadBlocker);
    s' := Put(s3, a, Active(TopWriter)).(lock := None);
    PathStep(s0, s3, s', a, k, a, DropLock);
  }

  /** With the lock free and no handle counted the writer comes through on its own moves. */
  lemma ComesUp(s0: State, s: State, a: Id, k: nat) returns (s': State)
    requires Inv(s) && Path(s0, s, a, 0)
    requires a in s.actors && s.actors[a] == Locking(true) && s.lock.None? && s.count == 0
    ensures Path(s0, s', a, k) && a in s'.actors && s'.actors[a] == Active(TopWriter) && s'.lock.None?
  {
    hide Path, Inv;
    OneBlocker(s);
    PathStep(s0, s, WithLock(s, a, 0), a, 0, a, TakeLock);
    SomeRemaps(s0, s, a, k);
    s' := TakesHandle(s0, WithLock(s, a, k), a, k);
  }

  // ------------------------------- whoever holds the lock can give it back

  /** On the way to giving the lock back, or, as a writer, the handle after it. */
  predicate GivingBack(p: Pc) { HoldsLock(p) || p == Active(TopWriter) || p == Closing(TopWriter) }

  function WayBack(p: Pc): nat {
    match p
    case Retreat(_) => 9
    case Backoff(_) => 8
    case Enter(_) => 7
    case Counted(_) => 6
    case Unlocking => 5
    case Draining(_) => 4
    case Drained(_) => 3
    case Remapped(_) => 2
    case Locked(_) => 1
    case Active(_) => 2
    case Closing(_) => 1
    case _ => 0
  }

  /** The next move of the owner, and what it leads to. */
  function NextBack(s: State, r: Id): (m: (Step, State))
    requires r in s.actors && GivingBack(s.actors[r])
  {
    match s.actors[r]
    case Retreat(k) => (TakeBack, Put(s, r, Backoff(k)).(count := s.count - 1))
    case Backoff(k) => (Poll, Put(s, r, Enter(k)))
    case Enter(k) => (Add, Put(s, r, Counted(k)).(count := s.count + 1))
    case Counted(_) => (ReadBlocker, Put(s, r, Unlocking))
    case Unlocking => (DropLock, Put(s, r, Active(TopWriter)).(lock := None))
    case Draining(b) => (ReadCount, Put(s, r, Drained(b)))
    case Drained(b) => (Remap, Put(s, r, Remapped(b)).(remaps := s.remaps + 1))
    case Remapped(b) => (LowerBlocker, Put(s, r, Locked(b)).(blockers := s.blockers - 1))
    case Locked(_) => (Leave(false), Put(s, r, Idle).(lock := None))
    case Active(k) => (End, Put(s, r, Closing(k)))
    case Closing(_) => (DropGuard, Put(s, r, Idle).(count := s.count - 1))
  }

  /** r is the only one that may be counted, owns the lock if anyone does, and lends its handle to nobody. */
  ghost predicate Alone(s: State, r: Id) {
    && Inv(s) && r in s.actors && Counting(s.actors) <= {r} && !Borrowed(s, r)
    && s.lock == if HoldsLock(s.actors[r]) then Some(r) else None
  }

  lemma AloneCount(s: State, r: Id)
    requires Alone(s, r)
    ensures s.count == if Counts(s.actors[r]) then 1 else 0
  {
    if Counts(s.actors[r]) {
      assert Counting(s.actors) == {r};
    } else {
      assert r !in Counting(s.actors);
      assert Counting(s.actors) == {};
    }
  }

  lemma NextBackIsNext(s: State, r: Id)
    requires r in s.actors && GivingBack(s.actors[r]) && !Borrowed(s, r)
    requires s.actors[r].Counted? ==> s.blockers == 0
    requires s.actors[r].Draining? ==> s.count == 0
    ensures var m := NextBack(s, r); Next(s, m.1, r, m.0)
  {
    hide Borrowed;
  }

  lemma BackStep(s: State, r: Id)
    requires Alone(s, r) && GivingBack(s.actors[r])
    ensures var m := NextBack(s, r);
            && Next(s, m.1, r, m.0) && WayBack(m.1.actors[r]) < WayBack(s.actors[r])
            && (GivingBack(m.1.actors[r]) || m.1.actors[r].Idle?)
            && (forall b :: b in s.actors && b != r ==> m.1.actors[b] == s.actors[b])
            && m.1.lock == if HoldsLock(m.1.actors[r]) then Some(r) else None
  {
    hide Inv, Next, Borrowed, Counting;
    OneBlocker(s);
    AloneCount(s, r);
    NextBackIsNext(s, r);
  }

  lemma StillAlone(s: State, r: Id)
    requires Alone(s, r) && GivingBack(s.actors[r])
    ensures Alone(NextBack(s, r).1, r)
  {
    hide Inv, Next;
    var m := NextBack(s, r);
    BackStep(s, r);
    StepInv(s, m.1, r, m.0);
    forall b | b in m.1.actors ensures !Borrows(m.1.actors[b], r) {
      assert b != r ==> m.1.actors[b] == s.actors[b] && (Borrows(s.actors[b], r) ==> Borrowed(s, r));
    }
    forall b | b in Counting(m.1.actors) ensures b in Counting(s.actors) + {r} {
      assert b != r ==> m.1.actors[b] == s.actors[b];
    }
  }

  lemma {:induction false} GivesBack(s0: State, s: State, r: Id, a: Id) returns (s': State)
    requires Path(s0, s, a, 0) && Alone(s, r) && r != a && (GivingBack(s.actors[r]) || s.actors[r].Idle?)
    ensures Path(s0, s', a, 0) && Inv(s') && s'.lock.None? && s'.count == 0
    ensures a in s.actors ==> a in s'.actors && s'.actors[a] == s.actors[a]
    decreases WayBack(s.actors[r])
  {
    hide Path, Next, Inv;
    if s.actors[r].Idle? {
      AloneCount(s, r);
      s' := s;
    } else {
      var m := NextBack(s, r);
      BackStep(s, r);
      StillAlone(s, r);
      PathStep(s0, s, m.1, a, 0, r, m.0);
      s' := GivesBack(s0, m.1, r, a);
    }
  }

  /** A call of begin_rw_txn_generic waiting for the lock, with no handle
      counted: whoever has the lock, and however often the writer is to map the
      file anew, there is a continuation in which it gets its transaction. */
  lemma WriterGetsHandle(s: State, a: Id, k: nat)
    requires Inv(s) && a in s.actors && s.actors[a] == Locking(true) && s.count == 0
    ensures exists s' :: Path(s, s', a, k) && a in s'.actors && s'.actors[a] == Active(TopWriter)
  {
    hide Path;
    PathStart(s, a);
    var s1 := s;
    if s.lock.Some? {
      var r := s.lock.value;
      OwnerAlone(s, r);
      s1 := GivesBack(s, s, r, a);
    }
    var s' := ComesUp(s, s1, a, k);
  }

  lemma OwnerAlone(s: State, r: Id)
    requires Inv(s) && s.count == 0 && s.lock == Some(r)
    ensures Alone(s, r) && GivingBack(s.actors[r])
  {
    assert Counting(s.actors) == {};
    assert forall b :: b in s.actors ==> !Borrows(s.actors[b], r);
  }
}
