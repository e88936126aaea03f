/** The resize interlock: transaction guards against the map resizer. */
module Interlock {
  /*
   Every SeqCst operation on tx_count and tx_blocker_count is one atomic step
   and the steps of all actors interleave freely.  An actor is the life of one
   API call together with the transaction handle it returns; a thread holding
   several handles is several actors.  The relaxed backoff poll may read any
   value, so leaving the backoff loop is always enabled.
   */

  import opened Options

  type Id = nat

  datatype Kind =
    | Reader                 // begin_ro_txn
    | TopWriter              // begin_rw_txn_generic, holding db_resize_lock
    | Nested(parent: Id)     // begin_nested_txn on the parent's handle

  /** Where one actor stands.  The comment says who owns what there. */
  datatype Pc =
    | Idle
    // TransactionGuard::new
    | Enter(kind: Kind)         // about to add to tx_count
    | Counted(kind: Kind)       // added, blocker not yet read
    | Retreat(kind: Kind)       // blocker seen, count not yet taken back
    | Backoff(kind: Kind)       // count taken back, polling
    // transaction handles
    | Guarded                   // reader: guard held, mdb_txn_begin not yet called
    | Active(kind: Kind)        // handle live, guard held
    | Inactive                  // reset read-only handle, guard carried over
    | Renewing                  // mdb_txn_renew in progress, guard carried over
    | Closing(kind: Kind)       // transaction ended, guard not yet dropped
    | Unlocking                 // top-level writer returned by begin, lock still held
    // begin_rw_txn_generic, set_map_size and do_resize: the resizer
    | Locking(resume: bool)     // waiting for db_resize_lock; resume = continue as a writer
    | Locked(resume: bool)      // lock held, no blocker
    | Draining(resume: bool)    // blocker published, waiting for tx_count to reach zero
    | Drained(resume: bool)     // tx_count read as zero
    | Remapped(resume: bool)    // map replaced, blocker still up

  datatype State = State(actors: map<Id, Pc>, count: int, blockers: int, lock: Option<Id>, remaps: nat)

  /** mdb_txn_begin has succeeded and nothing has ended the transaction yet. */
  predicate HasTxn(p: Pc) {
    match p
    case Enter(k) => !k.Reader?
    case Counted(k) => !k.Reader?
    case Retreat(k) => !k.Reader?
    case Backoff(k) => !k.Reader?
    case Active(_) => true
    case Inactive => true
    case Renewing => true
    case Unlocking => true
    case _ => false
  }

  /** The actor's contribution to tx_count: a guard, or an increment in flight. */
  predicate Counts(p: Pc) {
    p.Counted? || p.Retreat? || p.Guarded? || p.Active? || p.Inactive? || p.Renewing? || p.Closing? || p.Unlocking?
  }

  predicate Blocks(p: Pc) { p.Draining? || p.Drained? || p.Remapped? }

  predicate HoldsLock(p: Pc) {
    || p.Locked? || Blocks(p) || p.Unlocking?
    || ((p.Enter? || p.Counted? || p.Retreat? || p.Backoff?) && p.kind.TopWriter?)
  }

  /** The call or handle borrows its parent's handle mutably. */
  predicate Borrows(p: Pc, parent: Id) {
    (p.Enter? || p.Counted? || p.Retreat? || p.Backoff? || p.Active? || p.Closing?) && p.kind == Nested(parent)
  }

  ghost predicate Borrowed(s: State, a: Id) {
    exists b :: b in s.actors && Borrows(s.actors[b], a)
  }

  datatype Step =
    | Call(kind: Kind)       // enter begin_ro_txn or begin_nested_txn
    | CallWriter             // enter begin_rw_txn_generic
    | CallResize             // enter set_map_size or do_resize
    | Add | ReadBlocker | TakeBack | Poll
    | Begin(ok: bool)        // mdb_txn_begin of a reader
    | Reset | Renew | RenewDone(ok: bool)
    | End                    // commit, abort or drop: the transaction is over
    | DropGuard
    | TakeLock | RaiseBlocker | ReadCount | Remap | LowerBlocker | Leave(ok: bool)
    | DropLock

  ghost predicate Next(s: State, s': State, a: Id, step: Step) {
    && a in s.actors
    && var p := s.actors[a];
    match step
    case Call(kind) =>
      && p.Idle? && !kind.TopWriter?
      && (kind.Nested? ==> kind.parent in s.actors && s.actors[kind.parent].Active?
                           && !s.actors[kind.parent].kind.Reader? && !Borrowed(s, kind.parent))
      && s' == s.(actors := s.actors[a := Enter(kind)])
    case CallWriter => p.Idle? && s' == s.(actors := s.actors[a := Locking(true)])
    case CallResize => p.Idle? && s' == s.(actors := s.actors[a := Locking(false)])
    case Add => p.Enter? && s' == s.(actors := s.actors[a := Counted(p.kind)], count := s.count + 1)
    case ReadBlocker =>
      && p.Counted?
      && s' == s.(actors := s.actors[a :=
        if s.blockers != 0 then Retreat(p.kind)
        else if p.kind.Reader? then Guarded
        else if p.kind.TopWriter? then Unlocking
        else Active(p.kind)])
    case TakeBack => p.Retreat? && s' == s.(actors := s.actors[a := Backoff(p.kind)], count := s.count - 1)
    case Poll => p.Backoff? && s' == s.(actors := s.actors[a := Enter(p.kind)])
    case Begin(ok) => p.Guarded? && s' == s.(actors := s.actors[a := if ok then Active(Reader) else Closing(Reader)])
    case Reset => p == Active(Reader) && s' == s.(actors := s.actors[a := Inactive])
    case Renew => p.Inactive? && s' == s.(actors := s.actors[a := Renewing])
    case RenewDone(ok) =>
      p.Renewing? && s' == s.(actors := s.actors[a := if ok then Active(Reader) else Closing(Reader)])
    case End =>
      && (p.Active? || p.Inactive?) && !Borrowed(s, a)
      && s' == s.(actors := s.actors[a := Closing(if p.Active? then p.kind else Reader)])
    case DropGuard => p.Closing? && s' == s.(actors := s.actors[a := Idle], count := s.count - 1)
    case TakeLock => p.Locking? && s.lock.None? && s' == s.(actors := s.actors[a := Locked(p.resume)], lock := Some(a))
    case RaiseBlocker => p.Locked? && s' == s.(actors := s.actors[a := Draining(p.resume)], blockers := s.blockers + 1)
    case ReadCount => p.Draining? && s.count == 0 && s' == s.(actors := s.actors[a := Drained(p.resume)])
    case Remap => p.Drained? && s' == s.(actors := s.actors[a := Remapped(p.resume)], remaps := s.remaps + 1)
    case LowerBlocker => p.Remapped? && s' == s.(actors := s.actors[a := Locked(p.resume)], blockers := s.blockers - 1)
    case Leave(ok) =>
      // resizer done, or the writer's own mdb_txn_begin: it succeeds or fails
      && p.Locked?
      && if p.resume && ok then s' == s.(actors := s.actors[a := Enter(TopWriter)])
         else s' == s.(actors := s.actors[a := Idle], lock := None)
    case DropLock => p.Unlocking? && s' == s.(actors := s.actors[a := Active(TopWriter)], lock := None)
  }

  ghost predicate Init(s: State) {
    && (forall a :: a in s.actors ==> s.actors[a].Idle?)
    && s.count == 0 && s.blockers == 0 && s.lock.None?
  }

  datatype Move = Move(actor: Id, step: Step)

  ghost predicate IsRun(run: seq<State>, moves: seq<Move>) {
    && |run| == |moves| + 1
    && Init(run[0])
    && forall i :: 0 <= i < |moves| ==> Next(run[i], run[i + 1], moves[i].actor, moves[i].step)
  }

  // ----------------------------------------------------------- invariants

  function Counting(actors: map<Id, Pc>): set<Id> { set a | a in actors && Counts(actors[a]) }

  function Blocking(actors: map<Id, Pc>): set<Id> { set a | a in actors && Blocks(actors[a]) }

  /** A nested call or handle has a live parent that stays borrowed. */
  ghost predicate ParentsLive(actors: map<Id, Pc>) {
    forall a, p :: a in actors && Borrows(actors[a], p) ==>
      p in actors && actors[p].Active? && !actors[p].kind.Reader? && p != a
  }

  ghost predicate Inv(s: State) {
    && s.count == |Counting(s.actors)|
    && s.blockers == |Blocking(s.actors)|
    && (forall a :: a in s.actors && HoldsLock(s.actors[a]) ==> s.lock == Some(a))
    && (s.lock.Some? ==> s.lock.value in s.actors && HoldsLock(s.actors[s.lock.value]))
    && ParentsLive(s.actors)
    && (forall a :: a in s.actors && (s.actors[a].Drained? || s.actors[a].Remapped?) ==> Quiet(s.actors))
  }

  /** Nobody is past the blocker check: every count in flight will retreat. */
  ghost predicate Quiet(actors: map<Id, Pc>) {
    forall a :: a in actors && Counts(actors[a]) ==>
      (actors[a].Counted? || actors[a].Retreat?) && actors[a].kind.Reader?
  }

  lemma CountingUpdate(m: map<Id, Pc>, a: Id, p: Pc)
    requires a in m
    ensures |Counting(m[a := p])| == |Counting(m)| - (if Counts(m[a]) then 1 else 0) + (if Counts(p) then 1 else 0)
  {
    var c := Counting(m) - {a};
    if Counts(m[a]) { assert Counting(m) == c + {a}; } else { assert Counting(m) == c; }
    if Counts(p) { assert Counting(m[a := p]) == c + {a}; } else { assert Counting(m[a := p]) == c; }
  }

  lemma BlockingUpdate(m: map<Id, Pc>, a: Id, p: Pc)
    requires a in m
    ensures |Blocking(m[a := p])| == |Blocking(m)| - (if Blocks(m[a]) then 1 else 0) + (if Blocks(p) then 1 else 0)
  {
    var c := Blocking(m) - {a};
    if Blocks(m[a]) { assert Blocking(m) == c + {a}; } else { assert Blocking(m) == c; }
    if Blocks(p) { assert Blocking(m[a := p]) == c + {a}; } else { assert Blocking(m[a := p]) == c; }
  }

  lemma InitInv(s: State)
    requires Init(s)
    ensures Inv(s)
  {
    assert Counting(s.actors) == {} && Blocking(s.actors) == {};
  }

  lemma EmptyCount(actors: map<Id, Pc>, a: Id)
    requires |Counting(actors)| == 0 && a in actors
    ensures !Counts(actors[a])
  {
    assert a in Counting(actors) ==> Counting(actors) != {};
  }

  lemma SomeBlocker(actors: map<Id, Pc>, a: Id)
    requires a in actors && Blocks(actors[a])
    ensures |Blocking(actors)| > 0
  {
    assert a in Blocking(actors);
  }

  /** A step changes one actor, and the counters by that actor's share. */
  lemma StepDeltas(s: State, s': State, a: Id, step: Step)
    requires Next(s, s', a, step)
    ensures a in s'.actors && s'.actors == s.actors[a := s'.actors[a]]
    ensures var p, p' := s.actors[a], s'.actors[a];
            && s'.count == s.count - (if Counts(p) then 1 else 0) + (if Counts(p') then 1 else 0)
            && s'.blockers == s.blockers - (if Blocks(p) then 1 else 0) + (if Blocks(p') then 1 else 0)
            && s'.lock == (if HoldsLock(p) == HoldsLock(p') then s.lock else if HoldsLock(p') then Some(a) else None)
            && (HoldsLock(p') && !HoldsLock(p) ==> s.lock.None?)
  {
  }

  lemma StepCounts(s: State, s': State, a: Id, step: Step)
    requires Inv(s) && Next(s, s', a, step)
    ensures s'.count == |Counting(s'.actors)| && s'.blockers == |Blocking(s'.actors)|
    ensures forall b :: b in s'.actors && HoldsLock(s'.actors[b]) ==> s'.lock == Some(b)
    ensures s'.lock.Some? ==> s'.lock.value in s'.actors && HoldsLock(s'.actors[s'.lock.value])
  {
    StepDeltas(s, s', a, step);
    CountingUpdate(s.actors, a, s'.actors[a]);
    BlockingUpdate(s.actors, a, s'.actors[a]);
  }

  lemma NewBorrow(s: State, s': State, a: Id, step: Step, p: Id)
    requires Next(s, s', a, step) && Borrows(s'.actors[a], p)
    ensures Borrows(s.actors[a], p) || step == Call(Nested(p))
  {
  }

  lemma BorrowedWaits(s: State, s': State, a: Id, step: Step)
    requires Next(s, s', a, step) && s.actors[a].Active? && !s.actors[a].kind.Reader?
    ensures !Borrowed(s, a)
  {
  }

  lemma StepParents(s: State, s': State, a: Id, step: Step)
    requires Inv(s) && Next(s, s', a, step)
    ensures ParentsLive(s'.actors)
  {
    StepDeltas(s, s', a, step);
    forall b, p | b in s'.actors && Borrows(s'.actors[b], p)
      ensures p in s'.actors && s'.actors[p].Active? && !s'.actors[p].kind.Reader? && p != b
    {
      if b == a { NewBorrow(s, s', a, step, p); }
      if Borrows(s.actors[b], p) {
        assert Borrowed(s, p);
        if p == a { BorrowedWaits(s, s', a, step); }
      }
    }
  }

  lemma ParentCounts(s: State, a: Id, p: Id)
    requires ParentsLive(s.actors) && a in s.actors && Borrows(s.actors[a], p)
    ensures p in s.actors && s.actors[p].Active? && Counts(s.actors[p])
  {
  }

  /** With the map drained, only readers can still be entering. */
  lemma QuietEntry(s: State, r: Id, a: Id)
    requires Inv(s) && r in s.actors && (s.actors[r].Drained? || s.actors[r].Remapped?)
    requires a in s.actors && (s.actors[a].Enter? || s.actors[a].Counted? || s.actors[a].Retreat?
                               || s.actors[a].Backoff?)
    ensures s.actors[a].kind.Reader?
  {
    match s.actors[a].kind
    case Reader =>
    case TopWriter => assert HoldsLock(s.actors[a]) && HoldsLock(s.actors[r]);
    case Nested(p) => ParentCounts(s, a, p); assert false;
  }

  lemma StepQuiet(s: State, s': State, a: Id, step: Step, r: Id)
    requires Inv(s) && Next(s, s', a, step)
    requires r in s'.actors && (s'.actors[r].Drained? || s'.actors[r].Remapped?)
    ensures Quiet(s'.actors)
  {
    hide ParentsLive;
    forall b | b in s'.actors && Counts(s'.actors[b])
      ensures (s'.actors[b].Counted? || s'.actors[b].Retreat?) && s'.actors[b].kind.Reader?
    {
      if step.ReadCount? && a == r {
        EmptyCount(s.actors, b);
      } else {
        SomeBlocker(s.actors, r);
        assert Quiet(s.actors);
        if b == a && step.Add? {
          QuietEntry(s, r, a);
        }
      }
    }
  }

  lemma StepInv(s: State, s': State, a: Id, step: Step)
    requires Inv(s) && Next(s, s', a, step)
    ensures Inv(s')
  {
    StepCounts(s, s', a, step);
    StepParents(s, s', a, step);
    forall r | r in s'.actors && (s'.actors[r].Drained? || s'.actors[r].Remapped?) ensures Quiet(s'.actors) {
      StepQuiet(s, s', a, step, r);
    }
  }

  lemma {:induction false} RunInv(run: seq<State>, moves: seq<Move>, i: nat)
    requires IsRun(run, moves) && i < |run|
    ensures Inv(run[i])
  {
    if i == 0 {
      InitInv(run[0]);
    } else {
      RunInv(run, moves, i - 1);
      assert Next(run[i - 1], run[i - 1 + 1], moves[i - 1].actor, moves[i - 1].step);
      StepInv(run[i - 1], run[i], moves[i - 1].actor, moves[i - 1].step);
    }
  }

  // ------------------------------------------------------------- theorems

  /** While the map is being replaced no transaction handle is live, reset ones
      and writers between mdb_txn_begin and their guard included. */
  lemma RemapExcludesTransactions(run: seq<State>, moves: seq<Move>, i: nat, a: Id, s': State)
    requires IsRun(run, moves) && i < |run| && Next(run[i], s', a, Remap)
    ensures forall b :: b in run[i].actors ==> !HasTxn(run[i].actors[b])
    ensures forall b :: b in s'.actors ==> !HasTxn(s'.actors[b])
  {
    RunInv(run, moves, i);
    var s := run[i];
    forall b | b in s.actors ensures !HasTxn(s.actors[b]) {
      assert Quiet(s.actors);
      if Entering(s.actors[b]) { QuietEntry(s, a, b); }
    }
  }

  /** tx_count is exactly the guards held plus the increments in flight, it is
      positive whenever a step is about to decrement it, and it returns to zero
      once every call and handle is gone. */
  lemma CountIsExact(run: seq<State>, moves: seq<Move>, i: nat)
    requires IsRun(run, moves) && i < |run|
    ensures run[i].count == |Counting(run[i].actors)|
    ensures forall a :: a in run[i].actors && (run[i].actors[a].Retreat? || run[i].actors[a].Closing?) ==>
              run[i].count >= 1
    ensures (forall a :: a in run[i].actors ==> run[i].actors[a].Idle?) ==>
              run[i].count == 0 && run[i].blockers == 0 && run[i].lock.None?
  {
    RunInv(run, moves, i);
    var s := run[i];
    forall a | a in s.actors && (s.actors[a].Retreat? || s.actors[a].Closing?) ensures s.count >= 1 {
      assert a in Counting(s.actors);
    }
    if forall a :: a in s.actors ==> s.actors[a].Idle? {
      assert Counting(s.actors) == {} && Blocking(s.actors) == {};
    }
  }

  lemma OneBlocker(s: State)
    requires Inv(s)
    ensures 0 <= s.blockers <= 1
    ensures s.blockers == 1 <==> s.lock.Some? && Blocks(s.actors[s.lock.value])
  {
    if s.lock.Some? && Blocks(s.actors[s.lock.value]) {
      assert Blocking(s.actors) == {s.lock.value};
    } else {
      assert Blocking(s.actors) == {};
    }
  }

  /** The blocker count is at most one and is raised only by the lock's owner,
      so a top-level writer entering TransactionGuard::new never spins. */
  lemma BlockerIsSingleOwner(run: seq<State>, moves: seq<Move>, i: nat)
    requires IsRun(run, moves) && i < |run|
    ensures 0 <= run[i].blockers <= 1
    ensures run[i].blockers == 1 <==> run[i].lock.Some? && run[i].lock.value in run[i].actors
                                      && Blocks(run[i].actors[run[i].lock.value])
    ensures forall a :: a in run[i].actors && run[i].actors[a] == Counted(TopWriter) ==> run[i].blockers == 0
    ensures forall a :: a in run[i].actors ==> run[i].actors[a] != Backoff(TopWriter)
  {
    RunInv(run, moves, i);
    OneBlocker(run[i]);
    NoWriterBackoff(run, moves, i);
  }

  predicate WriterSpins(p: Pc) { p == Backoff(TopWriter) || p == Retreat(TopWriter) }

  lemma WriterGoesOn(s: State, a: Id)
    requires Inv(s)
    ensures a in s.actors && s.actors[a] == Counted(TopWriter) ==> s.blockers == 0
  {
    OneBlocker(s);
    assert a in s.actors && s.actors[a] == Counted(TopWriter) ==> HoldsLock(s.actors[a]);
  }

  lemma StepSpins(s: State, s': State, a: Id, step: Step)
    requires Next(s, s', a, step)
    requires a in s.actors && s.actors[a] == Counted(TopWriter) ==> s.blockers == 0
    ensures s'.actors.Keys == s.actors.Keys
    ensures forall b :: b in s.actors && b != a ==> s'.actors[b] == s.actors[b]
    ensures WriterSpins(s'.actors[a]) ==> WriterSpins(s.actors[a])
  {
  }

  lemma {:induction false} NoWriterBackoff(run: seq<State>, moves: seq<Move>, i: nat)
    requires IsRun(run, moves) && i < |run|
    ensures forall a :: a in run[i].actors ==>
              run[i].actors[a] != Backoff(TopWriter) && run[i].actors[a] != Retreat(TopWriter)
  {
    hide Inv, Next;
    if i > 0 {
      NoWriterBackoff(run, moves, i - 1);
      RunInv(run, moves, i - 1);
      assert Next(run[i - 1], run[i - 1 + 1], moves[i - 1].actor, moves[i - 1].step);
      WriterGoesOn(run[i - 1], moves[i - 1].actor);
      StepSpins(run[i - 1], run[i], moves[i - 1].actor, moves[i - 1].step);
    }
  }

  predicate Entering(p: Pc) { p.Enter? || p.Counted? || p.Retreat? || p.Backoff? }

  /** A stretch of execution from an arbitrary state. */
  ghost predicate Stretch(ss: seq<State>, moves: seq<Move>) {
    && |ss| == |moves| + 1
    && Inv(ss[0])
    && forall i :: 0 <= i < |moves| ==> Next(ss[i], ss[i + 1], moves[i].actor, moves[i].step)
  }

  lemma StillCounted(s: State, h: Id, r: Id)
    requires Inv(s) && h in s.actors && Counts(s.actors[h]) && r in s.actors && s.actors[r].Draining?
    ensures s.count > 0 && s.blockers > 0 && s.lock == Some(r)
  {
    assert h in Counting(s.actors);
    assert r in Blocking(s.actors);
  }

  lemma StuckStep(s: State, s': State, a: Id, step: Step, h: Id, r: Id, c: Id)
    requires Inv(s) && Next(s, s', a, step) && a != h
    requires h in s.actors && Counts(s.actors[h]) && r in s.actors && s.actors[r].Draining?
    requires c in s.actors && Entering(s.actors[c])
    ensures h in s'.actors && s'.actors[h] == s.actors[h]
    ensures r in s'.actors && s'.actors[r].Draining?
    ensures c in s'.actors && Entering(s'.actors[c])
    ensures Entering(s.actors[c]) ==> s'.actors[c].kind == s.actors[c].kind
  {
    hide ParentsLive, Quiet, Counting, Blocking, Borrowed;
    StillCounted(s, h, r);
  }

  /** Both dead-lock shapes documented for set_map_size: as long as the owner of
      a counted handle h takes no step, a resizer that has raised its blocker
      never gets past draining, and no call inside TransactionGuard::new
      returns.  If h's owner is the resizer's own thread, or is waiting in c,
      that is for ever. */
  lemma {:induction false} HeldHandleStopsResizer(ss: seq<State>, moves: seq<Move>, h: Id, r: Id, c: Id)
    requires Stretch(ss, moves)
    requires h in ss[0].actors && Counts(ss[0].actors[h]) && r in ss[0].actors && ss[0].actors[r].Draining?
    requires c in ss[0].actors && Entering(ss[0].actors[c])
    requires forall i :: 0 <= i < |moves| ==> moves[i].actor != h
    ensures var s := ss[|moves|];
            && Inv(s) && h in s.actors && s.actors[h] == ss[0].actors[h]
            && r in s.actors && s.actors[r].Draining?
            && c in s.actors && Entering(s.actors[c]) && s.actors[c].kind == ss[0].actors[c].kind
  {
    var n := |moves|;
    if n > 0 {
      assert Stretch(ss[..n], moves[..n - 1]);
      HeldHandleStopsResizer(ss[..n], moves[..n - 1], h, r, c);
      assert ss[..n][n - 1] == ss[n - 1];
      assert Next(ss[n - 1], ss[n - 1 + 1], moves[n - 1].actor, moves[n - 1].step);
      StepInv(ss[n - 1], ss[n], moves[n - 1].actor, moves[n - 1].step);
      StuckStep(ss[n - 1], ss[n], moves[n - 1].actor, moves[n - 1].step, h, r, c);
    }
  }

  /** begin_nested_txn against a pending resize is such a case by itself: the
      parent is borrowed, so in every continuation neither call ever returns. */
  lemma {:induction false} NestedBeginDeadlocks(ss: seq<State>, moves: seq<Move>, r: Id, c: Id)
    requires Stretch(ss, moves)
    requires r in ss[0].actors && ss[0].actors[r].Draining?
    requires c in ss[0].actors && Entering(ss[0].actors[c]) && ss[0].actors[c].kind.Nested?
    ensures var s := ss[|moves|];
            && Inv(s) && r in s.actors && s.actors[r].Draining?
            && c in s.actors && Entering(s.actors[c]) && s.actors[c].kind == ss[0].actors[c].kind
            && s.remaps == ss[0].remaps
  {
    hide Next, Inv;
    var n := |moves|;
    if n > 0 {
      assert Stretch(ss[..n], moves[..n - 1]);
      NestedBeginDeadlocks(ss[..n], moves[..n - 1], r, c);
      assert ss[..n][n - 1] == ss[n - 1];
      assert Next(ss[n - 1], ss[n - 1 + 1], moves[n - 1].actor, moves[n - 1].step);
      DeadlockStep(ss[n - 1], ss[n], moves[n - 1].actor, moves[n - 1].step, r, c);
    }
  }

  lemma DeadlockStep(s: State, s': State, a: Id, step: Step, r: Id, c: Id)
    requires Inv(s) && Next(s, s', a, step)
    requires r in s.actors && s.actors[r].Draining? && c in s.actors && Entering(s.actors[c])
             && s.actors[c].kind.Nested?
    ensures Inv(s') && r in s'.actors && s'.actors[r].Draining?
    ensures c in s'.actors && Entering(s'.actors[c]) && s'.actors[c].kind == s.actors[c].kind && s'.remaps == s.remaps
  {
    StepInv(s, s', a, step);
    var h := s.actors[c].kind.parent;
    assert Borrows(s.actors[c], h);
    assert Borrowed(s, h);
    if a == h {
      BorrowedWaits(s, s', a, step);
      assert false;
    }
    StuckStep(s, s', a, step, h, r, c);
    OneBlocker(s);
  }

  /** Some continuation takes the call of c out of TransactionGuard::new with its handle. */
  ghost predicate GetsOut(s: State, c: Id) {
    exists ss: seq<State>, moves: seq<Move> ::
      Leads(ss, moves, s) && c in ss[|moves|].actors && ss[|moves|].actors[c].Active?
  }

  ghost predicate Leads(ss: seq<State>, moves: seq<Move>, s: State) { Stretch(ss, moves) && ss[0] == s }

  /** What is reached after one step is reached before it. */
  lemma Earlier(s: State, s': State, a: Id, step: Step, c: Id)
    requires Inv(s) && Next(s, s', a, step) && GetsOut(s', c)
    ensures GetsOut(s, c)
  {
    var ss: seq<State>, moves: seq<Move> :| Leads(ss, moves, s') && c in ss[|moves|].actors
        && ss[|moves|].actors[c].Active?;
    var ss1, moves1 := [s] + ss, [Move(a, step)] + moves;
    forall i | 0 <= i < |moves1| ensures Next(ss1[i], ss1[i + 1], moves1[i].actor, moves1[i].step) {
      if i > 0 { assert Next(ss[i - 1], ss[i - 1 + 1], moves[i - 1].actor, moves[i - 1].step); }
    }
    assert ss1[|moves1|] == ss[|moves|];
    assert Leads(ss1, moves1, s);
  }

  /** The step a call inside TransactionGuard::new takes next. */
  function Onward(p: Pc): Step
    requires Entering(p)
  {
    match p
    case Enter(_) => Add
    case Counted(_) => ReadBlocker
    case Retreat(_) => TakeBack
    case Backoff(_) => Poll
  }

  /** What is left of the way out, the longest way leading through a retreat. */
  function ToGo(p: Pc): nat {
    if p.Retreat? then 4 else if p.Backoff? then 3 else if p.Enter? then 2 else if p.Counted? then 1 else 0
  }

  /** While no blocker is raised a nested call comes through on its own steps. */
  lemma {:induction false} ComesThrough(s: State, c: Id)
    requires Inv(s) && c in s.actors && s.blockers == 0
    requires if Entering(s.actors[c]) then s.actors[c].kind.Nested? else s.actors[c].Active?
    ensures GetsOut(s, c)
    decreases ToGo(s.actors[c])
  {
    if Entering(s.actors[c]) {
      var p := s.actors[c];
      var s' := Onwards(s, c);
      StepInv(s, s', c, Onward(p));
      ComesThrough(s', c);
      Earlier(s, s', c, Onward(p), c);
    } else {
      var moves: seq<Move> := [];
      assert Leads([s], moves, s) && [s][|moves|] == s;
    }
  }

  function Onwards(s: State, c: Id): (s': State)
    requires c in s.actors && Entering(s.actors[c]) && s.actors[c].kind.Nested? && s.blockers == 0
    ensures Next(s, s', c, Onward(s.actors[c])) && s'.blockers == 0
  {
    var kind := s.actors[c].kind;
    match s.actors[c]
    case Enter(_) => s.(actors := s.actors[c := Counted(kind)], count := s.count + 1)
    case Counted(_) => s.(actors := s.actors[c := Active(kind)])
    case Retreat(_) => s.(actors := s.actors[c := Backoff(kind)], count := s.count - 1)
    case Backoff(_) => s.(actors := s.actors[c := Enter(kind)])
  }

  /** A nested begin inside TransactionGuard::new can still return exactly if no blocker is raised. */
  lemma NestedBeginReturns(s: State, c: Id)
    requires Inv(s) && c in s.actors && Entering(s.actors[c]) && s.actors[c].kind.Nested?
    ensures GetsOut(s, c) <==> s.blockers == 0
  {
    OneBlocker(s);
    if s.blockers == 0 {
      ComesThrough(s, c);
    } else {
      var r := s.lock.value;
      if !s.actors[r].Draining? { QuietEntry(s, r, c); assert false; }
      forall ss: seq<State>, moves: seq<Move> | Leads(ss, moves, s)
        ensures c in ss[|moves|].actors && !ss[|moves|].actors[c].Active?
      {
        NestedBeginDeadlocks(ss, moves, r, c);
      }
    }
  }

  ghost predicate Reachable(s: State) {
    exists run: seq<State>, moves: seq<Move> :: IsRun(run, moves) && run[|moves|] == s
  }

  lemma Start(s: State)
    requires Init(s)
    ensures Reachable(s)
  {
    var moves: seq<Move> := [];
    assert IsRun([s], moves) && [s][|moves|] == s;
  }

  lemma Reach(s: State, s': State, a: Id, step: Step)
    requires Reachable(s) && Next(s, s', a, step)
    ensures Reachable(s')
  {
    var run: seq<State>, moves: seq<Move> :| IsRun(run, moves) && run[|moves|] == s;
    var run', moves' := run + [s'], moves + [Move(a, step)];
    forall i | 0 <= i < |moves'| ensures Next(run'[i], run'[i + 1], moves'[i].actor, moves'[i].step) {
      if i < |moves| { assert Next(run[i], run[i + 1], moves[i].actor, moves[i].step); }
    }
    assert IsRun(run', moves') && run'[|moves'|] == s';
  }

  function Put(s: State, a: Id, p: Pc): State { s.(actors := s.actors[a := p]) }

  /** begin_rw_txn_generic without a resize on the way. */
  lemma WriterBegins(s: State, a: Id) returns (s': State)
    requires Reachable(s) && a in s.actors && s.actors[a].Idle? && s.lock.None? && s.blockers == 0
    ensures Reachable(s') && s' == Put(s, a, Active(TopWriter)).(count := s.count + 1)
  {
    var s1 := Put(s, a, Locking(true));
    Reach(s, s1, a, CallWriter);
    var s2 := Put(s1, a, Locked(true)).(lock := Some(a));
    Reach(s1, s2, a, TakeLock);
    var s3 := Put(s2, a, Enter(TopWriter));
    Reach(s2, s3, a, Leave(true));
    var s4 := Put(s3, a, Counted(TopWriter)).(count := s.count + 1);
    Reach(s3, s4, a, Add);
    var s5 := Put(s4, a, Unlocking);
    Reach(s4, s5, a, ReadBlocker);
    s' := Put(s5, a, Active(TopWriter)).(lock := None);
    Reach(s5, s', a, DropLock);
  }

  /** set_map_size or do_resize up to its wait for the transactions. */
  lemma ResizerRaises(s: State, a: Id) returns (s': State)
    requires Reachable(s) && a in s.actors && s.actors[a].Idle? && s.lock.None?
    ensures Reachable(s') && s' == Put(s, a, Draining(false)).(lock := Some(a), blockers := s.blockers + 1)
  {
    var s1 := Put(s, a, Locking(false));
    Reach(s, s1, a, CallResize);
    var s2 := Put(s1, a, Locked(false)).(lock := Some(a));
    Reach(s1, s2, a, TakeLock);
    s' := Put(s2, a, Draining(false)).(blockers := s.blockers + 1);
    Reach(s2, s', a, RaiseBlocker);
  }

  /** begin_nested_txn up to TransactionGuard::new. */
  lemma NestedBegins(s: State, a: Id, parent: Id) returns (s': State)
    requires Reachable(s) && a in s.actors && s.actors[a].Idle?
    requires parent in s.actors && s.actors[parent] == Active(TopWriter) && !Borrowed(s, parent)
    ensures Reachable(s') && s' == Put(s, a, Enter(Nested(parent)))
  {
    s' := Put(s, a, Enter(Nested(parent)));
    Reach(s, s', a, Call(Nested(parent)));
  }

  lemma ReachableInv(s: State)
    requires Reachable(s)
    ensures Inv(s)
  {
    var run: seq<State>, moves: seq<Move> :| IsRun(run, moves) && run[|moves|] == s;
    RunInv(run, moves, |moves|);
  }

  /** The dead-lock is reached: a writer begins a nested transaction after a resizer has raised its blocker. */
  lemma NestedBeginMeetsResizer()
    ensures exists s :: Reachable(s) && s.actors.Keys == {0, 1, 2}
                        && s.actors[0] == Active(TopWriter) && s.actors[1] == Enter(Nested(0)) && s.actors[2].Draining?
                        && !GetsOut(s, 1)
  {
    hide Reachable, Next, Inv, GetsOut;
    var s0 := State(map[0 := Idle, 1 := Idle, 2 := Idle], 0, 0, None, 0);
    Start(s0);
    var s1 := WriterBegins(s0, 0);
    var s2 := ResizerRaises(s1, 2);
    var s := NestedBegins(s2, 1, 0);
    ReachableInv(s);
    NestedBeginReturns(s, 1);
  }
}
