/** Runs of the multi-version state machine: what holds in each and all of them. */
module MvccRuns {
  import opened Options
  import opened WriteTxn
  import opened WriteImages
  import opened Mvcc

  ghost predicate IsRun(run: seq<State>) {
    && |run| > 0 && Init(run[0])
    && forall i :: 0 <= i < |run| - 1 ==> Next(run[i], run[i + 1])
  }

  lemma {:induction false} RunInv(run: seq<State>, i: nat)
    requires IsRun(run) && i < |run|
    ensures Inv(run[i])
  {
    if i == 0 {
      InitInv(run[0]);
    } else {
      RunInv(run, i - 1);
      assert Next(run[i - 1], run[i - 1 + 1]);
      var step :| NextBy(run[i - 1], run[i], step);
      StepInv(run[i - 1], run[i], step);
    }
  }

  ghost predicate Reachable(s: State) { exists run: seq<State> :: IsRun(run) && run[|run| - 1] == s }

  lemma Reach(s: State, s': State, step: Step)
    requires Reachable(s) && NextBy(s, s', step)
    ensures Reachable(s')
  {
    var run: seq<State> :| IsRun(run) && run[|run| - 1] == s;
    var more := run + [s'];
    forall i | 0 <= i < |more| - 1 ensures Next(more[i], more[i + 1]) {
      if i < |run| - 1 { assert Next(run[i], run[i + 1]); }
    }
    assert more[|more| - 1] == s';
  }

  lemma ReachableInv(s: State)
    requires Reachable(s)
    ensures Inv(s)
  {
    var run: seq<State> :| IsRun(run) && run[|run| - 1] == s;
    RunInv(run, |run| - 1);
  }

  // ------------------------------------------------------------ theorems

  /** In every run, no page handed out by mdb_page_alloc belongs to the snapshot
      of a live reader, nor to either of the two latest committed snapshots. */
  lemma SnapshotIsolation(s: State, s': State, step: WriterStep, m: Snapshot)
    requires Reachable(s) && EnvNext(s, s', Op(step))
    requires m in s.metas.All() || exists j ::
               0 <= j < |s.slots| && s.slots[j].reader.Live? && s.slots[j].reader.snap == m
    ensures m.pages.Keys !! HandedOut(s.writer.value.txn, step)
  {
    ReachableInv(s);
    AllocSpares(s, s', step, m);
  }

  lemma AllocSpares(s: State, s': State, step: WriterStep, m: Snapshot)
    requires Inv(s) && EnvNext(s, s', Op(step)) && m in Held(s.slots, s.metas, s.onDisk)
    ensures m.pages.Keys !! HandedOut(s.writer.value.txn, step)
  {
    var base, w, w' := s.metas.At(s.mti), s.writer.value, s'.writer.value;
    var a, b := Work(w.txn, w.pg), Work(w'.txn, w'.pg);
    HandedOutExposed(base, s.pgoldest, a, b, step);
    HeldRecent(s, m);
    OpExposed(base, s.pgoldest, a, b, step, m);
  }

  /** A live reader sees the same image of every page of its snapshot for as
      long as it is open, whatever the writers, spills and commits do. */
  lemma ReaderSeesOneSnapshot(run: seq<State>, i: nat, j: nat, r: nat, pin: Txnid, m: Snapshot, p: Pgno)
    requires IsRun(run) && i <= j < |run| && p in m.pages
    requires forall k :: i <= k <= j ==> r < |run[k].slots| && run[k].slots[r].reader == Live(pin, m)
    ensures p in run[i].cache && p in run[j].cache
    ensures run[i].cache[p] == run[j].cache[p] == m.pages[p]
  {
    RunInv(run, i);
    RunInv(run, j);
    assert m in Held(run[i].slots, run[i].metas, run[i].onDisk);
    assert m in Held(run[j].slots, run[j].metas, run[j].onDisk);
  }

  /** The cached me_pgoldest bounds every reader whose slot has been rechecked,
      in every state, however old the scan that produced it is. */
  lemma OldestIsLowerBound(s: State, r: nat)
    requires Reachable(s) && r < |s.slots| && s.slots[r].Holds()
    ensures s.pgoldest <= s.slots[r].reader.pin <= s.mti
  {
    ReachableInv(s);
    assert SlotOk(s.slots[r], s.mti, s.pgoldest, s.metas.Newest().id);
  }

  lemma ReaderKeepsMti(s: State, s': State, i: nat, r: ReaderStep)
    requires ReaderNext(s, s', i, r)
    ensures s.mti == s'.mti
  {
  }

  lemma MtiGrows(s: State, s': State, step: Step)
    requires Inv(s) && NextBy(s, s', step)
    ensures s.mti <= s'.mti
  {
    match step
    case R(i, r) => ReaderKeepsMti(s, s', i, r);
    case E(e) => EnvMtiGrows(s, s', e);
  }

  lemma EnvMtiGrows(s: State, s': State, e: EnvStep)
    requires Inv(s) && EnvNext(s, s', e)
    ensures s.mti <= s'.mti
  {
    if e.Crash? { RecoveredOk(s); }
  }

  /** A published transaction is never lost: mti_txnid does not decrease, also
      across any number of crashes. */
  lemma {:induction false} CommitsAreDurable(run: seq<State>, i: nat, j: nat)
    requires IsRun(run) && i <= j < |run|
    ensures run[i].mti <= run[j].mti
  {
    if i < j {
      CommitsAreDurable(run, i, j - 1);
      RunInv(run, j - 1);
      assert Next(run[j - 1], run[j - 1 + 1]);
      var step :| NextBy(run[j - 1], run[j], step);
      MtiGrows(run[j - 1], run[j], step);
    }
  }

  /** A crash in any state recovers exactly the committed snapshot or the one
      whose meta record was being written, with every page intact on disk. */
  lemma CrashIsAtomic(s: State)
    requires Reachable(s)
    ensures var n := s.onDisk.Newest();
            && (n == s.metas.At(s.mti) ||
                (s.writer.Some? && s.writer.value.phase.MetaWritten? && n == s.writer.value.phase.snap
                 && n.id == s.mti + 1))
            && Intact(s.disk, n) && SnapshotConserved(n)
  {
    ReachableInv(s);
    RecoveredOk(s);
    assert s.onDisk.Newest() in Held(s.slots, s.metas, s.onDisk);
  }

  /** Page conservation at the two ends: in every committed snapshot, and in
      the open transaction at every nesting level, each page below next is used
      or listed exactly once, so the counts add up to next. */
  lemma PagesAreConserved(s: State)
    requires Reachable(s)
    ensures var m := s.metas.At(s.mti);
            SnapshotConserved(m) && |m.pages| + |Listed(m.free, 0)| + 2 == m.next
    ensures s.writer.Some? && !s.writer.value.phase.MetaWritten? ==>
              LevelsConserved(s.metas.At(s.mti).free, s.writer.value.txn, s.writer.value.pg)
  {
    ReachableInv(s);
    var m := s.metas.At(s.mti);
    assert m in Held(s.slots, s.metas, s.onDisk);
    PartitionSize(m.pages.Keys, {}, {}, {}, Listed(m.free, 0), m.next);
    assert |m.pages| == |m.pages.Keys|;
    if s.writer.Some? && !s.writer.value.phase.MetaWritten? {
      TxnLevels(m, s.writer.value.txn, s.writer.value.pg);
    }
  }

  // ------------------------------------------- what a commit publishes

  /** A stretch of a run, with its steps. */
  ghost predicate Stretch(run: seq<State>, es: seq<Step>) {
    && |run| == |es| + 1 && Reachable(run[0])
    && forall k :: 0 <= k < |es| ==> NextBy(run[k], run[k + 1], es[k])
  }

  /** The operations of the write transaction among the steps. */
  function OpsOf(es: seq<Step>): seq<WriterStep> {
    if |es| == 0 then []
    else
      var last := es[|es| - 1];
      OpsOf(es[..|es| - 1]) + if last.E? && last.e.Op? then [last.e.w] else []
  }

  lemma LaterBound(free: map<Txnid, set<Pgno>>, g: Txnid, g': Txnid, a: Work, b: Work, step: WriterStep)
    requires WriterNext(free, g, a, b, step) && g <= g'
    ensures WriterNext(free, g', a, b, step)
  {
  }

  /** A step while the same write transaction is open. */
  lemma ActiveStep(s: State, s': State, step: Step)
    requires Inv(s) && NextBy(s, s', step)
    requires s.writer.Some? && s.writer.value.phase.Active? && s'.writer.Some? && s'.writer.value.phase.Active?
    ensures s'.metas == s.metas && s'.mti == s.mti
    ensures var w, w' := s.writer.value, s'.writer.value;
            var a, b := Work(w.txn, w.pg), Work(w'.txn, w'.pg);
            if step.E? && step.e.Op? then WriterNext(s.metas.At(s.mti).free, s.mti, a, b, step.e.w) else b == a
  {
    hide HeldOk, BaseOk, PhaseOk, MetaPhaseOk, ScanOk;
    if step.E? && step.e.Op? {
      var w, w' := s.writer.value, s'.writer.value;
      LaterBound(s.metas.At(s.mti).free, s.pgoldest, s.mti, Work(w.txn, w.pg), Work(w'.txn, w'.pg), step.e.w);
    }
  }

  lemma {:induction false} StretchReachable(run: seq<State>, es: seq<Step>, k: nat)
    requires Stretch(run, es) && k < |run|
    ensures Reachable(run[k])
  {
    hide Reachable, NextBy;
    if k > 0 {
      StretchReachable(run, es, k - 1);
      assert NextBy(run[k - 1], run[k - 1 + 1], es[k - 1]);
      Reach(run[k - 1], run[k], es[k - 1]);
    }
  }

  /** What the operations of one write transaction do, whatever readers, scans
      of their table, spills and write-backs go on between them. */
  lemma {:induction false} WriterWorks(run: seq<State>, es: seq<Step>) returns (ws: seq<Work>)
    requires Stretch(run, es)
    requires forall k :: 0 <= k < |run| ==> run[k].writer.Some? && run[k].writer.value.phase.Active?
    ensures var s, w, w' := run[0], run[0].writer.value, run[|es|].writer.value;
            && run[|es|].metas == s.metas && run[|es|].mti == s.mti
            && Ops(s.metas.At(s.mti).free, s.mti, ws, OpsOf(es))
            && ws[0] == Work(w.txn, w.pg) && ws[|ws| - 1] == Work(w'.txn, w'.pg)
  {
    hide Reachable, NextBy, WriterNext, Inv;
    var n := |es|;
    if n == 0 {
      ws := [Work(run[0].writer.value.txn, run[0].writer.value.pg)];
    } else {
      var less, s, s' := es[..n - 1], run[n - 1], run[n];
      forall k | 0 <= k < n - 1 ensures NextBy(run[..n][k], run[..n][k + 1], less[k]) {
        assert NextBy(run[k], run[k + 1], es[k]);
      }
      ws := WriterWorks(run[..n], less);
      assert run[..n][n - 1] == s;
      assert NextBy(s, run[n - 1 + 1], es[n - 1]);
      StretchReachable(run, es, n - 1);
      ReachableInv(s);
      ActiveStep(s, s', es[n - 1]);
      if es[n - 1].E? && es[n - 1].e.Op? {
        ws := ws + [Work(s'.writer.value.txn, s'.writer.value.pg)];
      }
    }
  }

  /** The committed snapshot: each of its pages has the image that the last
      operation on it not undone by an abort gave it, and otherwise the one it
      has in the commit before. */
  lemma CommittedImages(before: State, run: seq<State>, es: seq<Step>, sealed: State, left: map<Txnid, set<Pgno>>,
                        pending: set<Pgno>) returns (ws: seq<Work>)
    requires Reachable(before) && |run| > 0 && EnvNext(before, run[0], BeginWrite)
    requires Stretch(run, es) && EnvNext(run[|run| - 1], sealed, Seal(left, pending))
    requires forall k :: 0 <= k < |run| ==> run[k].writer.Some? && run[k].writer.value.phase.Active?
    ensures var base, steps := before.metas.At(before.mti), OpsOf(es);
            && Ops(base.free, before.mti, ws, steps) && ws[0] == Started(base)
            && sealed.writer.Some? && sealed.writer.value.phase.Sealed?
            && var m := sealed.writer.value.phase.snap;
            && m.id == before.mti + 1
            && forall p :: p in m.pages ==> Latest(base.pages, ws, steps, |steps|, p, m.pages[p])
  {
    hide Reachable, WriterNext, Latest, NextBy;
    ws := WriterWorks(run, es);
    var base := before.metas.At(before.mti);
    LatestImages(base, before.mti, ws, OpsOf(es), |OpsOf(es)|);
    WriterKeepsId(run, es, |es|);
  }

  lemma {:induction false} WriterKeepsId(run: seq<State>, es: seq<Step>, k: nat)
    requires Stretch(run, es) && k < |run|
    requires forall i :: 0 <= i < |run| ==> run[i].writer.Some? && run[i].writer.value.phase.Active?
    ensures run[k].writer.value.id == run[0].writer.value.id
  {
    hide Reachable, WriterNext;
    if k > 0 {
      WriterKeepsId(run, es, k - 1);
      assert NextBy(run[k - 1], run[k - 1 + 1], es[k - 1]);
    }
  }

  lemma SealedStep(s: State, s': State, step: Step)
    requires NextBy(s, s', step) && s.writer.Some? && !s.writer.value.phase.Active? && s'.writer.Some?
    ensures !s'.writer.value.phase.Active? && s'.writer.value.phase.snap == s.writer.value.phase.snap
    ensures s'.writer.value.id == s.writer.value.id
  {
  }

  lemma {:induction false} SealedKept(run: seq<State>, es: seq<Step>)
    requires Stretch(run, es) && forall k :: 0 <= k < |run| ==> run[k].writer.Some?
    requires !run[0].writer.value.phase.Active?
    ensures var w, w' := run[0].writer.value, run[|es|].writer.value;
            !w'.phase.Active? && w'.phase.snap == w.phase.snap && w'.id == w.id
  {
    hide Reachable, NextBy;
    var n := |es|;
    if n > 0 {
      forall k | 0 <= k < n - 1 ensures NextBy(run[..n][k], run[..n][k + 1], es[..n - 1][k]) {
        assert NextBy(run[k], run[k + 1], es[k]);
      }
      SealedKept(run[..n], es[..n - 1]);
      assert run[..n][n - 1] == run[n - 1];
      assert NextBy(run[n - 1], run[n - 1 + 1], es[n - 1]);
      SealedStep(run[n - 1], run[n], es[n - 1]);
    }
  }

  /** What is published, to readers and on disk, is the snapshot as it was sealed. */
  lemma PublishedIsSealed(run: seq<State>, es: seq<Step>, after: State)
    requires Stretch(run, es) && forall k :: 0 <= k < |run| ==> run[k].writer.Some?
    requires run[0].writer.value.phase.Sealed? && EnvNext(run[|run| - 1], after, Publish)
    ensures var m := run[0].writer.value.phase.snap;
            && after.mti == run[0].writer.value.id && after.metas.At(after.mti) == m && after.onDisk.Newest() == m
            && Intact(after.cache, m) && Intact(after.disk, m)
  {
    hide Reachable, NextBy, SlotsOk, ScanOk, SnapshotConserved, RecordsSpare;
    var s := run[|run| - 1];
    StretchReachable(run, es, |run| - 1);
    ReachableInv(s);
    SealedKept(run, es);
    MetaWrittenPair(s);
    assert s.metas.At(s.mti + 1) in Held(s.slots, s.metas, s.onDisk);
  }

  // ------------------------------------------------ the scan of the readers

  /** The least of mti_txnid and the ids in the slots from the given one on. */
  ghost predicate Oldest(slots: seq<Slot>, from: nat, mti: Txnid, t: Txnid) {
    && t <= mti && (t == mti || exists j :: from <= j < |slots| && slots[j].published == Some(t))
    && forall j :: from <= j < |slots| && slots[j].published.Some? ==> t <= slots[j].published.value
  }

  /** A scan that no reader interferes with finds exactly that, so that with no
      reader every record of the freeDB can be used. */
  lemma {:induction false} ScanFindsOldest(start: State, run: seq<State>, n: nat)
    requires Inv(start) && |run| > n && EnvNext(start, run[0], ScanStart)
    requires n <= |start.slots| && forall k :: 0 <= k < n ==> EnvNext(run[k], run[k + 1], ScanSlot)
    ensures run[n].slots == start.slots && run[n].writer.Some? && run[n].writer.value.scan.Scanning?
    ensures var scan := run[n].writer.value.scan;
            scan.left == |start.slots| - n && Oldest(start.slots, scan.left, start.mti, scan.acc)
  {
    hide HeldOk, BaseOk, SlotsOk, MetaPhaseOk, PhaseOk;
    if n > 0 {
      ScanFindsOldest(start, run, n - 1);
      assert EnvNext(run[n - 1], run[n - 1 + 1], ScanSlot);
      var j := run[n - 1].writer.value.scan.left - 1;
      var acc, acc' := run[n - 1].writer.value.scan.acc, run[n].writer.value.scan.acc;
      assert acc' == acc || start.slots[j].published == Some(acc');
    }
  }

  lemma ScanSetsOldest(start: State, run: seq<State>, after: State)
    requires Inv(start) && |run| == |start.slots| + 1 && EnvNext(start, run[0], ScanStart)
    requires forall k :: 0 <= k < |start.slots| ==> EnvNext(run[k], run[k + 1], ScanSlot)
    requires EnvNext(run[|start.slots|], after, ScanEnd)
    ensures Oldest(start.slots, 0, start.mti, after.pgoldest)
  {
    hide Inv, Oldest;
    ScanFindsOldest(start, run, |start.slots|);
  }

  /** The snapshot a reader copies carries its announced id exactly when fewer
      than two transactions have written their meta record since. */
  lemma CopiedSnapshotIsPinned(s: State, s': State, r: nat)
    requires Reachable(s) && ReaderNext(s, s', r, Copy)
    ensures var pin, m := s.slots[r].reader.pin, s'.slots[r].reader.snap;
            && pin <= m.id
            && (m.id == pin <==> s.metas.Newest().id < pin + 2)
  {
    ReachableInv(s);
    assert SlotOk(s.slots[r], s.mti, s.pgoldest, s.metas.Newest().id);
    MetaAtLeastPin(s, s.slots[r].reader.pin);
  }

  /** From any quiet state a transaction that adds one page can be sealed ... */
  lemma SealOnePage(s: State) returns (w: Writer, q: Pgno)
    requires Reachable(s) && s.writer.None?
    ensures Reachable(s.(writer := Some(w))) && w.id == s.mti + 1
    ensures w.phase.Sealed? && w.phase.pending == {q} && q in w.phase.snap.pages && w.phase.snap.id == s.mti + 1
  {
    var base := s.metas.At(s.mti);
    var t0 := Txn(base.pages, base.next, {}, {}, {}, Root);
    var w0 := Writer(s.mti + 1, t0, PgState({}, 0), NoScan, Active);
    var s1 := s.(writer := Some(w0));
    Reach(s, s1, E(BeginWrite));
    q := base.next;
    var w1 := w0.(txn := t0.(pages := t0.pages + Fill(Run(q, 1), 7), dirty := {} + Run(q, 1), next := q + 1));
    var s2 := s1.(writer := Some(w1));
    Reach(s1, s2, E(Op(AllocNew(1, 7))));
    assert Run(q, 1) == {q};
    w := w1.(phase := Sealed(SealedSnapshot(base, w1, map[]), {q}));
    assert Spread(map[], 0, {});
    Reach(s2, s2.(writer := Some(w)), E(Seal(map[], {q})));
  }

  /** ... flushed and synced ... */
  lemma SyncOnePage(s: State, q: Pgno) returns (s': State)
    requires Reachable(s) && s.writer.Some? && s.writer.value.phase.Sealed?
    requires s.writer.value.phase.pending == {q} && q in s.writer.value.phase.snap.pages
    ensures Reachable(s')
    ensures s'.slots == s.slots && s'.mti == s.mti
            && s'.writer == Some(s.writer.value.(phase := Synced(s.writer.value.phase.snap)))
  {
    var w, m := s.writer.value, s.writer.value.phase.snap;
    var s1 := s.(cache := s.cache[q := m.pages[q]], writer := Some(w.(phase := Sealed(m, {q} - {q}))));
    Reach(s, s1, E(Flush(q)));
    s' := s1.(disk := s1.cache, writer := Some(w.(phase := Synced(m))));
    Reach(s1, s', E(Sync));
  }

  /** ... and committed. */
  lemma CommitOnePage(s: State) returns (s': State)
    requires Reachable(s) && s.writer.None?
    ensures Reachable(s') && s'.writer.None? && s'.mti == s.mti + 1 && s'.slots == s.slots
  {
    var w, q := SealOnePage(s);
    var s1 := SyncOnePage(s.(writer := Some(w)), q);
    var w1, m := s1.writer.value, w.phase.snap;
    var s2 := s1.(metas := s1.metas.With(m), writer := Some(w1.(phase := MetaWritten(m))));
    Reach(s1, s2, E(WriteMeta));
    var s3 := s2.(onDisk := s2.metas);
    Reach(s2, s3, E(MetaToDisk));
    s' := s3.(mti := w1.id, writer := None);
    Reach(s3, s', E(Publish));
  }

  lemma PinFirstReader() returns (s: State)
    ensures Reachable(s) && s.writer.None? && s.mti == 0 && s.slots == [Slot(Some(0), Pinned(0))]
  {
    var m := Metas(EmptySnapshot(), EmptySnapshot());
    var s0 := State([], 0, 0, m, m, map[], map[], None);
    assert IsRun([s0]) && [s0][|[s0]| - 1] == s0;
    var s1 := s0.(slots := [Slot(None, Idle)]);
    assert [] + [Slot(None, Idle)] == s1.slots;
    Reach(s0, s1, R(0, Claim));
    var s2 := s1.(slots := [Slot(None, Loaded(0))]);
    assert s1.slots[0 := Slot(None, Loaded(0))] == s2.slots;
    Reach(s1, s2, R(0, Load));
    var s3 := s2.(slots := [Slot(Some(0), Stored(0))]);
    assert s2.slots[0 := Slot(Some(0), Stored(0))] == s3.slots;
    Reach(s2, s3, R(0, Store));
    s := s3.(slots := [Slot(Some(0), Pinned(0))]);
    assert s3.slots[0 := Slot(Some(0), Pinned(0))] == s.slots;
    Reach(s3, s, R(0, Recheck));
  }

  /** The bound in CopiedSnapshotIsPinned is reached: a reader that announced 0
      can end up reading snapshot 2.  SnapshotIsolation covers it all the same. */
  lemma ReaderCanReadNewerThanPinned()
    ensures exists s :: Reachable(s) && |s.slots| == 1 && s.slots[0].reader.Live?
                        && s.slots[0].reader.pin == 0 && s.slots[0].reader.snap.id == 2
  {
    var s0 := PinFirstReader();
    var s1 := CommitOnePage(s0);
    var s2 := CommitOnePage(s1);
    ReachableInv(s2);
    var s := s2.(slots := s2.slots[0 := Slot(Some(0), Live(0, s2.metas.At(0)))]);
    Reach(s2, s, R(0, Copy));
  }
}
