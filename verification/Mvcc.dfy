/** Multi-version page reclamation, commit and recovery. */
module Mvcc {
  /*
   One writer at a time copies pages, any number of readers announce a
   transaction id in a slot without taking a lock, and a commit toggles between
   two meta records.  Every access to shared memory that can interleave is its
   own step: the reader's load, store, recheck and meta copy, the writer's scan
   of the reader table slot by slot, each page write, each write-back to disk,
   and a crash at any point.
   */

  import opened Options
  import opened WriteTxn

  /** The two meta records; transaction t writes record t % 2. */
  datatype Metas = Metas(even: Snapshot, odd: Snapshot) {
    function At(t: Txnid): Snapshot { if t % 2 == 0 then even else odd }

    function With(s: Snapshot): Metas { if s.id % 2 == 0 then Metas(s, odd) else Metas(even, s) }

    /** mdb_env_pick_meta. */
    function Newest(): Snapshot { if even.id < odd.id then odd else even }

    function All(): set<Snapshot> { {even, odd} }
  }

  /** A reader between the atomic steps of mdb_txn_renew0. */
  datatype Reader =
    | Idle
    | Loaded(seen: Txnid)                 // mti_txnid read, slot not yet written
    | Stored(seen: Txnid)                 // slot written, not yet rechecked
    | Pinned(pin: Txnid)                  // recheck passed, meta not yet copied
    | Live(pin: Txnid, snap: Snapshot)    // meta copied

  /** A reader table entry; None is the idle value (txnid_t)-1. */
  datatype Slot = Slot(published: Option<Txnid>, reader: Reader) {
    predicate Holds() { reader.Pinned? || reader.Live? }
  }

  datatype Scan = NoScan | Scanning(left: nat, acc: Txnid)

  datatype Phase =
    | Active
    | Sealed(snap: Snapshot, pending: set<Pgno>)
    | Synced(snap: Snapshot)
    | MetaWritten(snap: Snapshot)

  datatype Writer = Writer(id: Txnid, txn: Txn, pg: PgState, scan: Scan, phase: Phase)

  /** cache is the file as every process sees it through the map, disk is what
      survives a crash; metas and onDisk are the meta records of each. */
  datatype State = State(
    slots: seq<Slot>, mti: Txnid, pgoldest: Txnid,
    metas: Metas, onDisk: Metas,
    cache: map<Pgno, Image>, disk: map<Pgno, Image>,
    writer: Option<Writer>)

  // --------------------------------------------------------------- steps

  ghost predicate Init(s: State) {
    var m := Metas(EmptySnapshot(), EmptySnapshot());
    s == State([], 0, 0, m, m, map[], map[], None)
  }

  datatype ReaderStep = Claim | Load | Store | Recheck | Copy | End

  ghost predicate ReaderNext(s: State, s': State, i: nat, step: ReaderStep) {
    match step
    case Claim =>
      s' == s.(slots := s.slots + [Slot(None, Idle)])
    case Load =>
      && i < |s.slots| && s.slots[i].reader.Idle?
      && s' == s.(slots := s.slots[i := s.slots[i].(reader := Loaded(s.mti))])
    case Store =>
      && i < |s.slots| && s.slots[i].reader.Loaded?
      && var v := s.slots[i].reader.seen;
      s' == s.(slots := s.slots[i := Slot(Some(v), Stored(v))])
    case Recheck =>
      && i < |s.slots| && s.slots[i].reader.Stored?
      && var v := s.slots[i].reader.seen;
      s' == s.(slots := s.slots[i := s.slots[i].(reader := if v == s.mti then Pinned(v) else Idle)])
    case Copy =>
      && i < |s.slots| && s.slots[i].reader.Pinned?
      && var t := s.slots[i].reader.pin;
      s' == s.(slots := s.slots[i := s.slots[i].(reader := Live(t, s.metas.At(t)))])
    case End =>
      && i < |s.slots| && s.slots[i].reader.Live?
      && s' == s.(slots := s.slots[i := Slot(None, Idle)])
  }

  datatype EnvStep =
    | BeginWrite | EndWrite
    | ScanStart | ScanSlot | ScanEnd
    | Op(w: WriterStep)
    | Spill(p: Pgno, c: Image)
    | Seal(left: map<Txnid, set<Pgno>>, pending: set<Pgno>)
    | Flush(p: Pgno) | Sync | WriteMeta | MetaToDisk | Publish
    | WriteBack(p: Pgno)
    | Crash

  ghost predicate EnvNext(s: State, s': State, step: EnvStep) {
    match step
    case BeginWrite =>
      && s.writer.None?
      && var m := s.metas.At(s.mti);
      s' == s.(writer := Some(Writer(s.mti + 1, Txn(m.pages, m.next, {}, {}, {}, Root), PgState({}, 0), NoScan,
                                     Active)))
    case EndWrite =>
      && s.writer.Some? && s.writer.value.phase.Active?
      && s' == s.(writer := None)
    case ScanStart =>
      && s.writer.Some? && s.writer.value.phase.Active? && s.writer.value.scan.NoScan?
      && var w := s.writer.value;
      && w.id > 0
      && s' == s.(writer := Some(w.(scan := Scanning(|s.slots|, w.id - 1))))
    case ScanSlot =>
      && s.writer.Some? && s.writer.value.scan.Scanning?
      && var w := s.writer.value;
      && 0 < w.scan.left <= |s.slots|
      && var j := w.scan.left - 1;
      && var acc := w.scan.acc;
      && var mr := s.slots[j].published;
      s' == s.(writer := Some(w.(scan := Scanning(j, if mr.Some? && acc > mr.value then mr.value else acc))))
    case ScanEnd =>
      && s.writer.Some? && s.writer.value.scan.Scanning?
      && var w := s.writer.value;
      && w.scan.left == 0
      && s' == s.(writer := Some(w.(scan := NoScan)), pgoldest := w.scan.acc)
    case Op(step) =>
      && s.writer.Some? && s.writer.value.phase.Active? && s.writer.value.scan.NoScan?
      && s'.writer.Some?
      && var w, w' := s.writer.value, s'.writer.value;
      && WriterNext(s.metas.At(s.mti).free, s.pgoldest, Work(w.txn, w.pg), Work(w'.txn, w'.pg), step)
      && s' == s.(writer := Some(w.(txn := w'.txn, pg := w'.pg)))
    case Spill(p, c) =>
      && s.writer.Some? && s.writer.value.phase.Active?
      && p in s.writer.value.txn.dirty
      && s' == s.(cache := s.cache[p := c])
    case Seal(left, pending) =>
      && s.writer.Some? && s.writer.value.phase.Active? && s.writer.value.scan.NoScan?
      && var w := s.writer.value;
      && var t := w.txn;
      && t.up.Root?
      && Spread(left, w.pg.last, w.pg.head + t.loose)
      && pending <= t.dirty * t.pages.Keys
      && (forall p :: p in t.dirty && p in t.pages && p !in pending ==> p in s.cache && s.cache[p] == t.pages[p])
      && var snap := Snapshot(w.id, t.pages, SavedFree(s.metas.At(s.mti).free, w.pg.last, left, w.id, t.freed), t.next);
      s' == s.(writer := Some(w.(phase := Sealed(snap, pending))))
    case Flush(p) =>
      && s.writer.Some? && s.writer.value.phase.Sealed?
      && var w := s.writer.value;
      && p in w.phase.pending && p in w.phase.snap.pages
      && s' == s.(cache := s.cache[p := w.phase.snap.pages[p]],
                  writer := Some(w.(phase := Sealed(w.phase.snap, w.phase.pending - {p}))))
    case Sync =>
      && s.writer.Some? && s.writer.value.phase.Sealed? && s.writer.value.phase.pending == {}
      && var w := s.writer.value;
      s' == s.(disk := s.cache, writer := Some(w.(phase := Synced(w.phase.snap))))
    case WriteMeta =>
      && s.writer.Some? && s.writer.value.phase.Synced?
      && var w := s.writer.value;
      s' == s.(metas := s.metas.With(w.phase.snap), writer := Some(w.(phase := MetaWritten(w.phase.snap))))
    case MetaToDisk =>
      && s.writer.Some? && s.writer.value.phase.MetaWritten?
      && s' == s.(onDisk := s.metas)
    case Publish =>
      && s.writer.Some? && s.writer.value.phase.MetaWritten?
      && s.onDisk == s.metas
      && s' == s.(mti := s.writer.value.id, writer := None)
    case WriteBack(p) =>
      && p in s.cache
      && s' == s.(disk := s.disk[p := s.cache[p]])
    case Crash =>
      s' == State([], s.onDisk.Newest().id, 0, s.onDisk, s.onDisk, s.disk, s.disk, None)
  }

  datatype Step = R(i: nat, r: ReaderStep) | E(e: EnvStep)

  ghost predicate NextBy(s: State, s': State, step: Step) {
    match step
    case R(i, r) => ReaderNext(s, s', i, r)
    case E(e) => EnvNext(s, s', e)
  }

  ghost predicate Next(s: State, s': State) { exists step :: NextBy(s, s', step) }

  ghost predicate Intact(c: map<Pgno, Image>, m: Snapshot) {
    forall p :: p in m.pages ==> p in c && c[p] == m.pages[p]
  }

  /** The two records are consecutive transactions, each in its own place. */
  ghost predicate MetasOk(m: Metas) {
    var n := m.Newest().id;
    && m.At(n).id == n
    && (if n == 0 then m.even == EmptySnapshot() && m.odd == EmptySnapshot() else m.At(n + 1).id == n - 1)
  }

  /** Every snapshot somebody can still read: both meta records, in the file
      and on disk, and the snapshots of live readers. */
  function Held(slots: seq<Slot>, metas: Metas, onDisk: Metas): set<Snapshot> {
    metas.All() + onDisk.All() + set i | 0 <= i < |slots| && slots[i].reader.Live? :: slots[i].reader.snap
  }

  ghost predicate SlotOk(x: Slot, mti: Txnid, pgoldest: Txnid, newest: Txnid) {
    match x.reader
    case Stored(v) => x.published == Some(v)
    case Pinned(t) => x.published == Some(t) && pgoldest <= t <= mti
    case Live(t, m) => x.published == Some(t) && pgoldest <= t <= mti && t <= m.id <= newest
    case _ => true
  }

  ghost predicate SlotsOk(slots: seq<Slot>, mti: Txnid, pgoldest: Txnid, newest: Txnid) {
    && pgoldest <= mti
    && forall i :: 0 <= i < |slots| ==> SlotOk(slots[i], mti, pgoldest, newest)
  }

  ghost predicate ScanOk(slots: seq<Slot>, mti: Txnid, scan: Scan) {
    scan.Scanning? ==>
      && scan.acc <= mti
      && scan.left <= |slots|
      && forall i :: scan.left <= i < |slots| && slots[i].Holds() ==> scan.acc <= slots[i].reader.pin
  }

  /** While the writer may still allocate or write pages. */
  ghost predicate WriterOk(base: Snapshot, held: set<Snapshot>, w: Writer) {
    && TxnOk(base, w.txn, w.pg)
    && forall m :: m in held ==> m.pages.Keys !! Exposed(w.txn, w.pg)
  }

  /** The snapshot about to be committed. */
  ghost predicate NewSnapshotOk(held: set<Snapshot>, cache: map<Pgno, Image>, id: Txnid, m: Snapshot,
                                pending: set<Pgno>) {
    && m.id == id
    && SnapshotConserved(m)
    && RecordsSpare(m.free, m)
    && (forall h :: h in held ==> RecordsSpare(m.free, h) && h.next <= m.next)
    && forall p :: p in m.pages && p !in pending ==> p in cache && cache[p] == m.pages[p]
  }

  ghost predicate HeldOk(held: set<Snapshot>, cache: map<Pgno, Image>) {
    forall m :: m in held ==> Intact(cache, m) && SnapshotConserved(m)
  }

  ghost predicate BaseOk(base: Snapshot, held: set<Snapshot>) {
    forall m :: m in held && m.id <= base.id ==> RecordsSpare(base.free, m) && m.next <= base.next
  }

  ghost predicate PhaseOk(s: State, held: set<Snapshot>, w: Writer) {
    var base := s.metas.At(s.mti);
    match w.phase
    case Active => WriterOk(base, held, w)
    case Sealed(m, pending) =>
      && WriterOk(base, held, w) && pending <= w.txn.dirty && w.scan.NoScan?
      && NewSnapshotOk(held, s.cache, w.id, m, pending)
    case Synced(m) =>
      && WriterOk(base, held, w) && w.scan.NoScan?
      && NewSnapshotOk(held, s.cache, w.id, m, {}) && Intact(s.disk, m)
    case MetaWritten(m) =>
      && w.scan.NoScan?
      && NewSnapshotOk(held, s.cache, w.id, m, {}) && Intact(s.disk, m) && s.metas.At(w.id) == m
  }

  ghost predicate MetaPhaseOk(s: State) {
    && MetasOk(s.metas) && MetasOk(s.onDisk)
    && if s.writer.Some? && s.writer.value.phase.MetaWritten? then
         && s.metas.Newest().id == s.mti + 1
         && (s.onDisk == s.metas || s.onDisk.Newest() == s.metas.At(s.mti))
       else s.onDisk == s.metas && s.metas.Newest().id == s.mti
  }

  ghost predicate Inv(s: State) {
    var held := Held(s.slots, s.metas, s.onDisk);
    && MetaPhaseOk(s)
    && SlotsOk(s.slots, s.mti, s.pgoldest, s.metas.Newest().id)
    && HeldOk(held, s.cache)
    && BaseOk(s.metas.At(s.mti), held)
    && Intact(s.disk, s.onDisk.even) && Intact(s.disk, s.onDisk.odd)
    && (s.writer.Some? ==>
          && s.writer.value.id == s.mti + 1
          && ScanOk(s.slots, s.mti, s.writer.value.scan)
          && PhaseOk(s, held, s.writer.value))
  }

  // ------------------------------------------------ inductive invariance

  lemma InitInv(s: State)
    requires Init(s)
    ensures Inv(s)
  {
    assert Listed(map[], 0) == {};
    assert Span(2) == {};
  }

  /** A reader step never makes another snapshot readable. */
  lemma HeldAfterReader(s: State, s': State, i: nat, step: ReaderStep)
    requires ReaderNext(s, s', i, step)
    ensures Held(s'.slots, s'.metas, s'.onDisk) <= Held(s.slots, s.metas, s.onDisk)
  {
    var h, h' := Held(s.slots, s.metas, s.onDisk), Held(s'.slots, s'.metas, s'.onDisk);
    forall m | m in h' ensures m in h {
      if m !in s.metas.All() + s.onDisk.All() {
        var j :| 0 <= j < |s'.slots| && s'.slots[j].reader.Live? && s'.slots[j].reader.snap == m;
        if step.Claim? {
          assert s'.slots[j] == if j < |s.slots| then s.slots[j] else Slot(None, Idle);
        } else if j != i {
          assert s'.slots[j] == s.slots[j];
        }
      }
    }
  }

  lemma PhaseShrink(s: State, s': State, held: set<Snapshot>, held': set<Snapshot>, w: Writer)
    requires PhaseOk(s, held, w)
    requires held' <= held
    requires s'.metas == s.metas && s'.mti == s.mti && s'.cache == s.cache && s'.disk == s.disk
    ensures PhaseOk(s', held', w)
  {
  }

  lemma ScanAfterReader(s: State, s': State, i: nat, step: ReaderStep)
    requires ReaderNext(s, s', i, step) && s.writer.Some? && ScanOk(s.slots, s.mti, s.writer.value.scan)
    ensures ScanOk(s'.slots, s.mti, s.writer.value.scan)
  {
  }

  lemma ReaderStepInv(s: State, s': State, i: nat, step: ReaderStep)
    requires Inv(s) && ReaderNext(s, s', i, step)
    ensures Inv(s')
  {
    hide HeldOk, BaseOk, Intact, PhaseOk, Held, MetasOk, ScanOk;
    HeldAfterReader(s, s', i, step);
    if s.writer.Some? { ScanAfterReader(s, s', i, step); }
    var h, h' := Held(s.slots, s.metas, s.onDisk), Held(s'.slots, s'.metas, s'.onDisk);
    if s.writer.Some? {
      PhaseShrink(s, s', h, h', s.writer.value);
    }
    HeldShrink(s.metas.At(s.mti), h, h', s.cache);
    forall j | 0 <= j < |s'.slots|
      ensures SlotOk(s'.slots[j], s.mti, s.pgoldest, s.metas.Newest().id)
    {
      if step.Claim? {
        assert s'.slots[j] == if j < |s.slots| then s.slots[j] else Slot(None, Idle);
      } else if j != i {
        assert s'.slots[j] == s.slots[j];
      } else if step.Copy? {
        MetaAtLeastPin(s, s.slots[i].reader.pin);
      }
    }
  }

  /** The meta record a pinned reader copies is at least as new as its pin. */
  lemma MetaAtLeastPin(s: State, t: Txnid)
    requires MetaPhaseOk(s) && t <= s.mti
    ensures t <= s.metas.At(t).id <= s.metas.Newest().id
    ensures s.metas.At(t).id == t <==> s.metas.Newest().id < t + 2
  {
  }

  /** Held snapshots are no older than the cached oldest reader, give or take
      the older of the two meta records. */
  lemma HeldRecent(s: State, m: Snapshot)
    requires MetaPhaseOk(s) && SlotsOk(s.slots, s.mti, s.pgoldest, s.metas.Newest().id)
    requires !(s.writer.Some? && s.writer.value.phase.MetaWritten?)
    requires m in Held(s.slots, s.metas, s.onDisk)
    ensures s.pgoldest <= m.id + 1 && m.id <= s.mti
  {
    if m !in s.metas.All() {
      var i :| 0 <= i < |s.slots| && s.slots[i].reader.Live? && s.slots[i].reader.snap == m;
      assert SlotOk(s.slots[i], s.mti, s.pgoldest, s.metas.Newest().id);
    }
  }

  lemma OpInv(s: State, s': State, step: WriterStep)
    requires Inv(s) && EnvNext(s, s', Op(step))
    ensures Inv(s')
  {
    var base, held := s.metas.At(s.mti), Held(s.slots, s.metas, s.onDisk);
    var w, w' := s.writer.value, s'.writer.value;
    var a, b := Work(w.txn, w.pg), Work(w'.txn, w'.pg);
    assert base in held;
    OpTxnOk(base, s.pgoldest, a, b, step);
    forall m | m in held ensures m.pages.Keys !! Exposed(w'.txn, w'.pg) {
      HeldRecent(s, m);
      OpExposed(base, s.pgoldest, a, b, step, m);
    }
  }

  lemma ScanSlotOk(slots: seq<Slot>, mti: Txnid, pgoldest: Txnid, newest: Txnid, left: nat, acc: Txnid)
    requires SlotsOk(slots, mti, pgoldest, newest) && ScanOk(slots, mti, Scanning(left, acc)) && 0 < left <= |slots|
    ensures var mr := slots[left - 1].published;
            ScanOk(slots, mti, Scanning(left - 1, if mr.Some? && acc > mr.value then mr.value else acc))
  {
    assert SlotOk(slots[left - 1], mti, pgoldest, newest);
  }

  /** A finished scan is a lower bound for every reader that holds a pin. */
  lemma ScanBound(slots: seq<Slot>, mti: Txnid, pgoldest: Txnid, newest: Txnid, acc: Txnid)
    requires SlotsOk(slots, mti, pgoldest, newest) && ScanOk(slots, mti, Scanning(0, acc))
    ensures SlotsOk(slots, mti, acc, newest)
  {
    forall i | 0 <= i < |slots| ensures SlotOk(slots[i], mti, acc, newest) {
      assert SlotOk(slots[i], mti, pgoldest, newest);
      assert slots[i].Holds() ==> acc <= slots[i].reader.pin;
    }
  }

  lemma ScanInv(s: State, s': State, step: EnvStep)
    requires step.ScanStart? || step.ScanSlot? || step.ScanEnd?
    requires Inv(s) && EnvNext(s, s', step)
    ensures Inv(s')
  {
    hide HeldOk, BaseOk, Intact, SlotsOk, TxnOk, Exposed, Held, MetasOk, NewSnapshotOk;
    var w := s.writer.value;
    if step.ScanSlot? {
      ScanSlotOk(s.slots, s.mti, s.pgoldest, s.metas.Newest().id, w.scan.left, w.scan.acc);
    } else if step.ScanEnd? {
      ScanBound(s.slots, s.mti, s.pgoldest, s.metas.Newest().id, w.scan.acc);
    }
  }

  lemma BeginEndInv(s: State, s': State, step: EnvStep)
    requires step.BeginWrite? || step.EndWrite?
    requires Inv(s) && EnvNext(s, s', step)
    ensures Inv(s')
  {
    if step.BeginWrite? {
      var base := s.metas.At(s.mti);
      assert base in Held(s.slots, s.metas, s.onDisk);
      var w := s'.writer.value;
      assert Freed(w.txn) == {} && Loose(w.txn) == {} && AllDirty(w.txn) == {} && Exposed(w.txn, w.pg) == {};
    }
  }

  /** Overwriting a page that no held snapshot contains. */
  lemma WritePage(c: map<Pgno, Image>, p: Pgno, x: Image, m: Snapshot)
    requires Intact(c, m) && p !in m.pages
    ensures Intact(c[p := x], m)
  {
  }

  lemma SpillInv(s: State, s': State, step: EnvStep)
    requires step.Spill? || step.Flush?
    requires Inv(s) && EnvNext(s, s', step)
    ensures Inv(s')
  {
    var w := s.writer.value;
    var held := Held(s.slots, s.metas, s.onDisk);
    var p := step.p;
    assert p in w.txn.dirty;
    assert p in Exposed(w.txn, w.pg);
    forall m | m in held ensures Intact(s'.cache, m) {
      WritePage(s.cache, p, s'.cache[p], m);
    }
  }

  function SealedSnapshot(base: Snapshot, w: Writer, left: map<Txnid, set<Pgno>>): Snapshot {
    Snapshot(w.id, w.txn.pages, SavedFree(base.free, w.pg.last, left, w.id, w.txn.freed), w.txn.next)
  }

  lemma SealConserved(base: Snapshot, w: Writer, left: map<Txnid, set<Pgno>>)
    requires w.id == base.id + 1 && SnapshotConserved(base)
    requires TxnOk(base, w.txn, w.pg) && w.txn.up.Root?
    requires Spread(left, w.pg.last, w.pg.head + w.txn.loose)
    ensures SnapshotConserved(SealedSnapshot(base, w, left))
    ensures RecordsSpare(SealedSnapshot(base, w, left).free, SealedSnapshot(base, w, left))
  {
    var t, m, what := w.txn, SealedSnapshot(base, w, left), w.pg.head + w.txn.loose;
    assert Loose(t) == t.loose && Freed(t) == t.freed;
    SavedListed(base.free, w.pg.last, left, w.id, t.freed, what);
    forall k, p | k in m.free && p in m.free[k] ensures p !in m.pages {
      assert p in Listed(m.free, 0);
    }
  }

  lemma SealFlushed(base: Snapshot, w: Writer, cache: map<Pgno, Image>, pending: set<Pgno>, p: Pgno)
    requires TxnOk(base, w.txn, w.pg) && w.txn.up.Root? && Intact(cache, base)
    requires forall p :: p in w.txn.dirty && p in w.txn.pages && p !in pending ==>
               p in cache && cache[p] == w.txn.pages[p]
    requires p in w.txn.pages && p !in pending
    ensures p in cache && cache[p] == w.txn.pages[p]
  {
    assert AllDirty(w.txn) == w.txn.dirty;
  }

  lemma SealInv(s: State, s': State, step: EnvStep)
    requires step.Seal? && Inv(s) && EnvNext(s, s', step)
    ensures Inv(s')
  {
    var w := s.writer.value;
    var base, held := s.metas.At(s.mti), Held(s.slots, s.metas, s.onDisk);
    var m := SealedSnapshot(base, w, step.left);
    assert base in held;
    assert s' == s.(writer := Some(w.(phase := Sealed(m, step.pending))));
    assert NewSnapshotOk(held, s.cache, w.id, m, step.pending) by {
      SealConserved(base, w, step.left);
      forall h | h in held ensures RecordsSpare(m.free, h) && h.next <= m.next {
        HeldRecent(s, h);
        SealSpares(base, w, step.left, h);
      }
      forall p | p in m.pages && p !in step.pending ensures p in s.cache && s.cache[p] == m.pages[p] {
        SealFlushed(base, w, s.cache, step.pending, p);
      }
    }
  }

  /** Records of the new freeDB spare every snapshot that is still held. */
  lemma SealSpares(base: Snapshot, w: Writer, left: map<Txnid, set<Pgno>>, h: Snapshot)
    requires w.id == base.id + 1 && h.id <= base.id
    requires TxnOk(base, w.txn, w.pg) && w.txn.up.Root? && SnapshotConserved(base)
    requires Spread(left, w.pg.last, w.pg.head + w.txn.loose)
    requires RecordsSpare(base.free, h) && h.pages.Keys !! Exposed(w.txn, w.pg)
    ensures RecordsSpare(SavedFree(base.free, w.pg.last, left, w.id, w.txn.freed), h)
  {
    var f := SavedFree(base.free, w.pg.last, left, w.id, w.txn.freed);
    forall k, p | k in f && k <= h.id && p in f[k] ensures p !in h.pages {
      SavedRecords(base.free, w.pg.last, left, w.id, w.txn.freed, k);
      if k in left {
        assert p in Listed(left, 0);
        assert p in Exposed(w.txn, w.pg);
      }
    }
  }

  lemma SyncInv(s: State, s': State)
    requires Inv(s) && EnvNext(s, s', Sync)
    ensures Inv(s')
  {
    var held := Held(s.slots, s.metas, s.onDisk);
    assert s.onDisk.even in held && s.onDisk.odd in held;
  }

  lemma SlotsGrow(slots: seq<Slot>, mti: Txnid, mti': Txnid, pgoldest: Txnid, newest: Txnid, newest': Txnid)
    requires SlotsOk(slots, mti, pgoldest, newest) && mti <= mti' && newest <= newest'
    ensures SlotsOk(slots, mti', pgoldest, newest')
  {
    forall i | 0 <= i < |slots| ensures SlotOk(slots[i], mti', pgoldest, newest') {
      assert SlotOk(slots[i], mti, pgoldest, newest);
    }
  }

  lemma WithNext(m: Metas, n: Snapshot)
    requires MetasOk(m) && n.id == m.Newest().id + 1
    ensures MetasOk(m.With(n)) && m.With(n).Newest() == n
    ensures m.With(n).At(m.Newest().id) == m.Newest() == m.At(m.Newest().id) && m.With(n).At(n.id) == n
  {
  }

  /** The meta write keeps everything already held, and adds the new snapshot. */
  lemma WriteMetaHeld(s: State, s': State)
    requires Inv(s) && EnvNext(s, s', WriteMeta)
    ensures var m := s.writer.value.phase.snap;
            var held, held' := Held(s.slots, s.metas, s.onDisk), Held(s'.slots, s'.metas, s'.onDisk);
            && held' <= held + {m}
            && m.id == s.metas.Newest().id + 1 == s.mti + 1 && MetasOk(s.metas)
            && NewSnapshotOk(held, s.cache, s.mti + 1, m, {}) && Intact(s.disk, m)
            && HeldOk(held, s.cache) && BaseOk(s.metas.At(s.mti), held)
  {
  }

  lemma HeldAdd(base: Snapshot, held: set<Snapshot>, held': set<Snapshot>, cache: map<Pgno, Image>, id: Txnid,
                m: Snapshot)
    requires HeldOk(held, cache) && BaseOk(base, held) && held' <= held + {m}
    requires NewSnapshotOk(held, cache, id, m, {}) && id == base.id + 1
    ensures HeldOk(held', cache) && BaseOk(base, held') && NewSnapshotOk(held', cache, id, m, {})
  {
  }

  lemma WriteMetaInv(s: State, s': State)
    requires Inv(s) && EnvNext(s, s', WriteMeta)
    ensures Inv(s')
  {
    var m := s.writer.value.phase.snap;
    WriteMetaHeld(s, s');
    WithNext(s.metas, m);
    HeldAdd(s.metas.At(s.mti), Held(s.slots, s.metas, s.onDisk), Held(s'.slots, s'.metas, s'.onDisk), s.cache,
            s.mti + 1, m);
    SlotsGrow(s.slots, s.mti, s.mti, s.pgoldest, s.metas.Newest().id, m.id);
  }

  /** In MetaWritten the file's records are the committed snapshot and the new one. */
  lemma MetaWrittenPair(s: State)
    requires Inv(s) && s.writer.Some? && s.writer.value.phase.MetaWritten?
    ensures s.metas.All() == {s.metas.At(s.mti), s.writer.value.phase.snap}
    ensures s.metas.Newest() == s.writer.value.phase.snap
    ensures Intact(s.disk, s.metas.even) && Intact(s.disk, s.metas.odd)
  {
    hide SlotsOk, ScanOk, HeldOk, BaseOk, NewSnapshotOk, Held;
    var w, base := s.writer.value, s.metas.At(s.mti);
    assert s.metas.At(w.id) == w.phase.snap;
    assert base == s.onDisk.even || base == s.onDisk.odd;
    assert Intact(s.disk, base);
  }

  lemma HeldShrink(base: Snapshot, held: set<Snapshot>, held': set<Snapshot>, cache: map<Pgno, Image>)
    requires HeldOk(held, cache) && BaseOk(base, held) && held' <= held
    ensures HeldOk(held', cache) && BaseOk(base, held')
  {
  }

  lemma MetaToDiskInv(s: State, s': State)
    requires Inv(s) && EnvNext(s, s', MetaToDisk)
    ensures Inv(s')
  {
    var held, held' := Held(s.slots, s.metas, s.onDisk), Held(s'.slots, s'.metas, s'.onDisk);
    assert held' <= held;
    MetaWrittenPair(s);
    PhaseShrink(s, s', held, held', s.writer.value);
    HeldShrink(s.metas.At(s.mti), held, held', s.cache);
  }

  lemma PublishInv(s: State, s': State)
    requires Inv(s) && EnvNext(s, s', Publish)
    ensures Inv(s')
  {
    SlotsGrow(s.slots, s.mti, s'.mti, s.pgoldest, s.metas.Newest().id, s.metas.Newest().id);
  }

  lemma WriteBackInv(s: State, s': State, p: Pgno)
    requires Inv(s) && EnvNext(s, s', WriteBack(p))
    ensures Inv(s')
  {
    hide SlotsOk, SlotOk, ScanOk, WriterOk, SnapshotConserved, RecordsSpare, MetasOk;
    var held := Held(s.slots, s.metas, s.onDisk);
    assert s.onDisk.even in held && s.onDisk.odd in held;
  }

  /** The record a restart picks, and what its freeDB may reclaim. */
  lemma RecoveredOk(s: State)
    requires Inv(s)
    ensures var n := s.onDisk.Newest();
            && (n == s.metas.At(s.mti) ||
                (s.writer.Some? && s.writer.value.phase.MetaWritten? && n == s.writer.value.phase.snap))
            && forall m :: m in s.onDisk.All() ==> RecordsSpare(n.free, m) && m.next <= n.next && m.id <= n.id
  {
    hide SlotsOk, ScanOk, Intact, SnapshotConserved, RecordsSpare;
    assert s.onDisk.All() <= Held(s.slots, s.metas, s.onDisk);
    if s.writer.Some? && s.writer.value.phase.MetaWritten? { MetaWrittenPair(s); }
  }

  lemma CrashInv(s: State, s': State)
    requires Inv(s) && EnvNext(s, s', Crash)
    ensures Inv(s')
  {
    hide SlotOk, ScanOk, PhaseOk, SnapshotConserved, RecordsSpare;
    RecoveredOk(s);
    var n := s.onDisk.Newest();
    var held, held' := Held(s.slots, s.metas, s.onDisk), Held([], s.onDisk, s.onDisk);
    assert held' == s.onDisk.All() <= held;
    assert s'.metas.At(s'.mti) == n;
    assert HeldOk(held', s'.cache);
    assert BaseOk(n, held');
  }

  lemma WriterStepInv(s: State, s': State, e: EnvStep)
    requires e.Op? || e.BeginWrite? || e.EndWrite? || e.ScanStart? || e.ScanSlot? || e.ScanEnd? || e.Spill? || e.Flush?
    requires Inv(s) && EnvNext(s, s', e)
    ensures Inv(s')
  {
    hide *;
    match e
    case Op(o) => OpInv(s, s', o);
    case Spill(_, _) => SpillInv(s, s', e);
    case Flush(_) => SpillInv(s, s', e);
    case BeginWrite => BeginEndInv(s, s', e);
    case EndWrite => BeginEndInv(s, s', e);
    case ScanStart => ScanInv(s, s', e);
    case ScanSlot => ScanInv(s, s', e);
    case ScanEnd => ScanInv(s, s', e);
  }

  lemma CommitStepInv(s: State, s': State, e: EnvStep)
    requires e.Seal? || e.Sync? || e.WriteMeta? || e.MetaToDisk? || e.Publish? || e.WriteBack? || e.Crash?
    requires Inv(s) && EnvNext(s, s', e)
    ensures Inv(s')
  {
    hide *;
    match e
    case Seal(_, _) => SealInv(s, s', e);
    case Sync => SyncInv(s, s');
    case WriteMeta => WriteMetaInv(s, s');
    case MetaToDisk => MetaToDiskInv(s, s');
    case Publish => PublishInv(s, s');
    case WriteBack(p) => WriteBackInv(s, s', p);
    case Crash => CrashInv(s, s');
  }

  lemma StepInv(s: State, s': State, step: Step)
    requires Inv(s) && NextBy(s, s', step)
    ensures Inv(s')
  {
    hide Inv, EnvNext, ReaderNext;
    match step
    case R(i, r) => ReaderStepInv(s, s', i, r);
    case E(e) =>
      if e.Seal? || e.Sync? || e.WriteMeta? || e.MetaToDisk? || e.Publish? || e.WriteBack? || e.Crash? {
        CommitStepInv(s, s', e);
      } else {
        WriterStepInv(s, s', e);
      }
  }
}
