/**
 A write transaction as the allocator sees it: the pages it has taken, freed
 and set aside at each nesting level, the freeDB it reclaims from, and what
 saving the freeDB at commit leaves behind.
 */
module WriteTxn {
  type Pgno = nat
  type Txnid = nat
  type Image = int

  /** What a meta record names: the pages reachable from its roots with their
      images, the freeDB records, and the first page number never used. */
  datatype Snapshot = Snapshot(id: Txnid, pages: map<Pgno, Image>, free: map<Txnid, set<Pgno>>, next: Pgno)

  /** me_pgstate: reclaimed pages and the last freeDB record they came from. */
  datatype PgState = PgState(head: set<Pgno>, last: Txnid)

  /** A write transaction's working state: its tree, and the lists of dirty,
      freed and loose pages of this nesting level only. */
  datatype Txn = Txn(pages: map<Pgno, Image>, next: Pgno, dirty: set<Pgno>,
                     freed: set<Pgno>, loose: set<Pgno>, up: Up)

  /** The parent transaction and the allocator state saved for it. */
  datatype Up = Root | Parent(txn: Txn, saved: PgState)

  function EmptySnapshot(): Snapshot { Snapshot(0, map[], map[], 2) }

  function Fill(ps: set<Pgno>, c: Image): map<Pgno, Image> { map p | p in ps :: c }

  predicate Between(lo: nat, p: nat, hi: nat) { lo <= p < hi }

  function Interval(lo: nat, hi: nat): set<Pgno> { set p: nat | p < hi && Between(lo, p, hi) }

  function Run(first: Pgno, n: nat): set<Pgno> { Interval(first, first + n) }

  /** The pages listed in freeDB records above last. */
  function Listed(free: map<Txnid, set<Pgno>>, last: Txnid): set<Pgno> {
    set k, p | k in free && k > last && p in free[k] :: p
  }

  // --------------------------------------------------------------- steps

  /** Steps of an open write transaction that touch only its own lists. */
  datatype WriterStep =
    | Consume(k: Txnid)                           // merge freeDB record k into me_pghead
    | AllocHead(first: Pgno, n: nat, c: Image)    // a run out of me_pghead
    | AllocNew(n: nat, c: Image)                  // new pages at mt_next_pgno
    | AllocLoose(p: Pgno, c: Image)
    | Edit(p: Pgno, c: Image)
    | CopyDown(p: Pgno)                           // nested: dirty a page dirty in an ancestor
    | FreePages(ps: set<Pgno>)                    // to mt_free_pgs
    | Loosen(p: Pgno)
    | FreeOverflow(ps: set<Pgno>)                 // dirty overflow run back to me_pghead
    | LooseToFree
    | BeginNested
    | CommitNested
    | AbortNested

  /** The state of a write transaction without its reader scan. */
  datatype Work = Work(txn: Txn, pg: PgState)

  ghost predicate WriterNext(free: map<Txnid, set<Pgno>>, pgoldest: Txnid, a: Work, b: Work, step: WriterStep) {
    var t := a.txn;
    match step
    case Consume(k) =>
      && k in free && a.pg.last < k < pgoldest
      && (forall j :: j in free && a.pg.last < j ==> k <= j)
      && b == Work(t, PgState(a.pg.head + free[k], k))
    case AllocHead(first, n, c) =>
      && Run(first, n) <= a.pg.head
      && b == Work(t.(pages := t.pages + Fill(Run(first, n), c), dirty := t.dirty + Run(first, n)),
                   a.pg.(head := a.pg.head - Run(first, n)))
    case AllocNew(n, c) =>
      && b == a.(txn := t.(pages := t.pages + Fill(Run(t.next, n), c), dirty := t.dirty + Run(t.next, n),
                           next := t.next + n))
    case AllocLoose(p, c) =>
      && p in t.loose
      && b == a.(txn := t.(pages := t.pages[p := c], loose := t.loose - {p}))
    case Edit(p, c) =>
      && p in t.pages && p in t.dirty
      && b == a.(txn := t.(pages := t.pages[p := c]))
    case CopyDown(p) =>
      && p in t.pages && p in AllDirty(t)
      && b == a.(txn := t.(dirty := t.dirty + {p}))
    case FreePages(ps) =>
      && ps <= t.pages.Keys
      && b == a.(txn := t.(pages := t.pages - ps, freed := t.freed + ps))
    case Loosen(p) =>
      && p in t.pages && p in t.dirty
      && b == a.(txn := t.(pages := t.pages - {p}, loose := t.loose + {p}))
    case FreeOverflow(ps) =>
      && ps <= t.pages.Keys && ps <= t.dirty && a.pg.last > 0 && t.up.Root?
      && b == Work(t.(pages := t.pages - ps, dirty := t.dirty - ps), a.pg.(head := a.pg.head + ps))
    case LooseToFree =>
      && a.pg.last == 0 && t.up.Root?
      && b == a.(txn := t.(freed := t.freed + t.loose, dirty := t.dirty - t.loose, loose := {}))
    case BeginNested =>
      && b == a.(txn := Txn(t.pages, t.next, {}, {}, {}, Parent(t, a.pg)))
    case CommitNested =>
      && t.up.Parent?
      && var u := t.up.txn;
      b == a.(txn := Txn(t.pages, t.next, u.dirty + t.dirty, u.freed + t.freed, u.loose + t.loose, u.up))
    case AbortNested =>
      && t.up.Parent?
      && b == Work(t.up.txn, t.up.saved)
  }

  /** How mdb_freelist_save re-files what is left in me_pghead: under keys no
      greater than me_pglast, every page once. */
  ghost predicate Spread(left: map<Txnid, set<Pgno>>, last: Txnid, what: set<Pgno>) {
    && (forall k :: k in left ==> 1 <= k <= last)
    && RecordsDisjoint(left)
    && Listed(left, 0) == what
  }

  function SavedFree(free: map<Txnid, set<Pgno>>, last: Txnid, left: map<Txnid, set<Pgno>>,
                     id: Txnid, freed: set<Pgno>): map<Txnid, set<Pgno>> {
    (map k | k in free && k > last :: free[k]) + left + (if freed == {} then map[] else map[id := freed])
  }

  // ---------------------------------------------------------- invariants

  function Freed(t: Txn): set<Pgno> { t.freed + if t.up.Root? then {} else Freed(t.up.txn) }

  function Loose(t: Txn): set<Pgno> { t.loose + if t.up.Root? then {} else Loose(t.up.txn) }

  function AllDirty(t: Txn): set<Pgno> { t.dirty + if t.up.Root? then {} else AllDirty(t.up.txn) }

  /** Pages this transaction, or an ancestor after an abort, may overwrite. */
  function Exposed(t: Txn, pg: PgState): set<Pgno> {
    pg.head + t.dirty + if t.up.Root? then {} else Exposed(t.up.txn, t.up.saved)
  }

  ghost predicate RecordsDisjoint(free: map<Txnid, set<Pgno>>) {
    forall j, k :: j in free && k in free && j != k ==> free[j] !! free[k]
  }

  function Span(next: Pgno): set<Pgno> { Interval(2, next) }

  /** Every non-meta page below next is in exactly one of the five classes. */
  ghost predicate Partition(tree: set<Pgno>, head: set<Pgno>, freed: set<Pgno>, loose: set<Pgno>,
                            listed: set<Pgno>, next: Pgno) {
    && tree + head + freed + loose + listed == Span(next)
    && tree !! head && tree !! freed && tree !! loose && tree !! listed
    && head !! freed && head !! loose && head !! listed
    && freed !! loose && freed !! listed
    && loose !! listed
  }

  ghost predicate SnapshotConserved(m: Snapshot) {
    && (forall k :: k in m.free ==> 1 <= k <= m.id)
    && RecordsDisjoint(m.free)
    && Partition(m.pages.Keys, {}, {}, {}, Listed(m.free, 0), m.next)
    && m.next >= 2
  }

  ghost predicate Conserved(free: map<Txnid, set<Pgno>>, t: Txn, pg: PgState) {
    Partition(t.pages.Keys, pg.head, Freed(t), Loose(t), Listed(free, pg.last), t.next)
  }

  /** Pages not dirtied at any level still carry the base snapshot's image. */
  ghost predicate CleanAgrees(base: Snapshot, t: Txn) {
    forall p :: p in t.pages && p !in AllDirty(t) ==> p in base.pages && base.pages[p] == t.pages[p]
  }

  ghost predicate TxnOk(base: Snapshot, t: Txn, pg: PgState)
    decreases t
  {
    && Conserved(base.free, t, pg)
    && CleanAgrees(base, t)
    && t.loose <= t.dirty
    && base.next <= t.next
    && (pg.last == 0 || pg.last < base.id)
    && (pg.last == 0 ==> pg.head == {})
    && (t.up.Parent? ==>
          && TxnOk(base, t.up.txn, t.up.saved)
          && t.loose !! Loose(t.up.txn)
          && t.up.saved.last <= pg.last && t.up.txn.next <= t.next)
  }

  /** A record reclaimable below m's id lists no page of m. */
  ghost predicate RecordsSpare(free: map<Txnid, set<Pgno>>, m: Snapshot) {
    forall k, p :: k in free && k <= m.id && p in free[k] ==> p !in m.pages
  }

  // ----------------------------------------------- every step keeps them

  /** Taking the lowest record above last out of the listed pages. */
  lemma ListedSplit(free: map<Txnid, set<Pgno>>, last: Txnid, k: Txnid)
    requires RecordsDisjoint(free) && k in free && last < k
    requires forall j :: j in free && last < j ==> k <= j
    ensures Listed(free, last) == free[k] + Listed(free, k)
    ensures free[k] !! Listed(free, k)
  {
    forall p | p in Listed(free, last) ensures p in free[k] + Listed(free, k) {
      var j :| j in free && j > last && p in free[j];
      if j != k { assert k < j; }
    }
  }

  lemma AllocTxnOk(base: Snapshot, t: Txn, pg: PgState, b: Work, ps: set<Pgno>, c: Image)
    requires TxnOk(base, t, pg)
    requires b.txn == t.(pages := t.pages + Fill(ps, c), dirty := b.txn.dirty, loose := b.txn.loose, next := b.txn.next)
    requires b.pg.last == pg.last && (pg.last == 0 ==> b.pg.head == {})
    requires t.dirty + ps == b.txn.dirty && b.txn.loose <= t.loose && t.next <= b.txn.next
    requires Conserved(base.free, b.txn, b.pg)
    ensures TxnOk(base, b.txn, b.pg)
  {
    assert AllDirty(b.txn) == AllDirty(t) + ps;
  }

  /** Pages change places: out of me_pghead or the loose pages into the tree,
      and new ones from the end of the file. */
  lemma HeadToTree(tree: set<Pgno>, head: set<Pgno>, freed: set<Pgno>, loose: set<Pgno>, listed: set<Pgno>,
                   next: Pgno, ps: set<Pgno>)
    requires Partition(tree, head, freed, loose, listed, next) && ps <= head
    ensures Partition(tree + ps, head - ps, freed, loose, listed, next)
  {
    hide Interval;
  }

  lemma LooseToTree(tree: set<Pgno>, head: set<Pgno>, freed: set<Pgno>, loose: set<Pgno>, listed: set<Pgno>,
                    next: Pgno, p: Pgno)
    requires Partition(tree, head, freed, loose, listed, next) && p in loose
    ensures Partition(tree + {p}, head, freed, loose - {p}, listed, next)
  {
    hide Interval;
  }

  lemma NewToTree(tree: set<Pgno>, head: set<Pgno>, freed: set<Pgno>, loose: set<Pgno>, listed: set<Pgno>,
                  next: Pgno, n: nat)
    requires Partition(tree, head, freed, loose, listed, next) && next >= 2
    ensures Partition(tree + Run(next, n), head, freed, loose, listed, next + n)
  {
    assert Span(next + n) == Span(next) + Run(next, n);
    assert Run(next, n) !! Span(next);
  }

  lemma TreeToLoose(tree: set<Pgno>, head: set<Pgno>, freed: set<Pgno>, loose: set<Pgno>, listed: set<Pgno>,
                    next: Pgno, p: Pgno)
    requires Partition(tree, head, freed, loose, listed, next) && p in tree
    ensures p !in loose && Partition(tree - {p}, head, freed, loose + {p}, listed, next)
  {
    hide Interval;
  }

  lemma LooseFreed(tree: set<Pgno>, head: set<Pgno>, freed: set<Pgno>, loose: set<Pgno>, listed: set<Pgno>,
                   next: Pgno)
    requires Partition(tree, head, freed, loose, listed, next)
    ensures tree !! loose && Partition(tree, head, freed + loose, {}, listed, next)
  {
    hide Interval;
  }

  lemma AllocConserved(free: map<Txnid, set<Pgno>>, pgoldest: Txnid, a: Work, b: Work, step: WriterStep)
    requires step.AllocHead? || step.AllocNew? || step.AllocLoose?
    requires Conserved(free, a.txn, a.pg) && WriterNext(free, pgoldest, a, b, step)
    requires a.txn.next >= 2
    requires a.txn.up.Parent? ==> a.txn.loose !! Loose(a.txn.up.txn)
    ensures Conserved(free, b.txn, b.pg)
  {
    hide Partition, Listed, Span, Interval;
    var t, tree, listed := a.txn, a.txn.pages.Keys, Listed(free, a.pg.last);
    assert Freed(b.txn) == Freed(t);
    match step
    case AllocHead(first, n, c) =>
      HeadToTree(tree, a.pg.head, Freed(t), Loose(t), listed, t.next, Run(first, n));
      assert b.txn.pages.Keys == tree + Run(first, n);
      assert Loose(b.txn) == Loose(t);
    case AllocNew(n, c) =>
      NewToTree(tree, a.pg.head, Freed(t), Loose(t), listed, t.next, n);
      assert b.txn.pages.Keys == tree + Run(t.next, n);
      assert Loose(b.txn) == Loose(t);
    case AllocLoose(p, c) =>
      LooseToTree(tree, a.pg.head, Freed(t), Loose(t), listed, t.next, p);
      assert b.txn.pages.Keys == tree + {p};
      assert Loose(b.txn) == Loose(t) - {p};
  }

  lemma AllocOk(base: Snapshot, pgoldest: Txnid, a: Work, b: Work, step: WriterStep)
    requires step.AllocHead? || step.AllocNew? || step.AllocLoose?
    requires TxnOk(base, a.txn, a.pg) && WriterNext(base.free, pgoldest, a, b, step) && base.next >= 2
    ensures TxnOk(base, b.txn, b.pg)
  {
    AllocConserved(base.free, pgoldest, a, b, step);
    match step
    case AllocHead(first, n, c) => AllocTxnOk(base, a.txn, a.pg, b, Run(first, n), c);
    case AllocNew(n, c) => AllocTxnOk(base, a.txn, a.pg, b, Run(a.txn.next, n), c);
    case AllocLoose(p, c) =>
      assert b.txn.pages == a.txn.pages + Fill({p}, c);
      AllocTxnOk(base, a.txn, a.pg, b, {p}, c);
  }

  lemma FreeOk(base: Snapshot, pgoldest: Txnid, a: Work, b: Work, step: WriterStep)
    requires step.FreePages? || step.FreeOverflow?
    requires TxnOk(base, a.txn, a.pg) && WriterNext(base.free, pgoldest, a, b, step)
    ensures TxnOk(base, b.txn, b.pg)
  {
    var t := a.txn;
    assert Loose(b.txn) == Loose(t);
    match step
    case FreePages(ps) =>
      assert Freed(b.txn) == Freed(t) + ps;
    case FreeOverflow(ps) =>
      assert Freed(b.txn) == Freed(t);
      assert t.loose !! ps;
  }

  lemma LooseOk(base: Snapshot, pgoldest: Txnid, a: Work, b: Work, step: WriterStep)
    requires step.Loosen? || step.LooseToFree?
    requires TxnOk(base, a.txn, a.pg) && WriterNext(base.free, pgoldest, a, b, step)
    ensures TxnOk(base, b.txn, b.pg)
  {
    hide Partition, Listed, Span, Interval;
    var t, tree, listed := a.txn, a.txn.pages.Keys, Listed(base.free, a.pg.last);
    match step
    case Loosen(p) =>
      TreeToLoose(tree, a.pg.head, Freed(t), Loose(t), listed, t.next, p);
      assert b.txn.pages.Keys == tree - {p};
      assert Freed(b.txn) == Freed(t) && Loose(b.txn) == Loose(t) + {p};
    case LooseToFree =>
      LooseFreed(tree, a.pg.head, Freed(t), Loose(t), listed, t.next);
      assert Freed(b.txn) == Freed(t) + Loose(t) && Loose(b.txn) == {};
  }

  lemma NestOk(base: Snapshot, pgoldest: Txnid, a: Work, b: Work, step: WriterStep)
    requires step.Edit? || step.CopyDown? || step.BeginNested? || step.CommitNested? || step.AbortNested?
    requires TxnOk(base, a.txn, a.pg) && WriterNext(base.free, pgoldest, a, b, step)
    ensures TxnOk(base, b.txn, b.pg)
  {
    hide Partition, Listed, Span, Interval;
    var t := a.txn;
    match step
    case Edit(p, c) =>
      assert b.txn.pages.Keys == t.pages.Keys;
      assert Freed(b.txn) == Freed(t) && Loose(b.txn) == Loose(t) && AllDirty(b.txn) == AllDirty(t);
    case CopyDown(p) =>
      assert Freed(b.txn) == Freed(t) && Loose(b.txn) == Loose(t) && AllDirty(b.txn) == AllDirty(t);
    case BeginNested =>
      assert Freed(b.txn) == Freed(t) && Loose(b.txn) == Loose(t) && AllDirty(b.txn) == AllDirty(t);
    case CommitNested =>
      assert Freed(b.txn) == Freed(t) && Loose(b.txn) == Loose(t) && AllDirty(b.txn) == AllDirty(t);
    case AbortNested =>
  }

  lemma OpTxnOk(base: Snapshot, pgoldest: Txnid, a: Work, b: Work, step: WriterStep)
    requires SnapshotConserved(base) && pgoldest <= base.id
    requires TxnOk(base, a.txn, a.pg)
    requires WriterNext(base.free, pgoldest, a, b, step)
    ensures TxnOk(base, b.txn, b.pg)
  {
    match step
    case Consume(k) => ListedSplit(base.free, a.pg.last, k);
    case AllocHead(_, _, _) => AllocOk(base, pgoldest, a, b, step);
    case AllocNew(_, _) => AllocOk(base, pgoldest, a, b, step);
    case AllocLoose(_, _) => AllocOk(base, pgoldest, a, b, step);
    case FreePages(_) => FreeOk(base, pgoldest, a, b, step);
    case Loosen(_) => LooseOk(base, pgoldest, a, b, step);
    case FreeOverflow(_) => FreeOk(base, pgoldest, a, b, step);
    case LooseToFree => LooseOk(base, pgoldest, a, b, step);
    case _ => NestOk(base, pgoldest, a, b, step);
  }

  /** Pages from mt_next_pgno on lie in no older snapshot. */
  lemma NewPagesSpare(base: Snapshot, a: Work, n: nat, m: Snapshot)
    requires TxnOk(base, a.txn, a.pg) && SnapshotConserved(m) && m.next <= base.next
    ensures m.pages.Keys !! Run(a.txn.next, n)
  {
    assert m.pages.Keys <= Span(m.next);
  }

  /** Only taking over a record and extending the file expose further pages. */
  lemma OldExposed(free: map<Txnid, set<Pgno>>, pgoldest: Txnid, a: Work, b: Work, step: WriterStep)
    requires WriterNext(free, pgoldest, a, b, step) && !step.Consume? && !step.AllocNew?
    ensures Exposed(b.txn, b.pg) <= Exposed(a.txn, a.pg)
  {
    DirtyExposed(a.txn, a.pg);
    assert Exposed(b.txn, b.pg) <= Exposed(a.txn, a.pg) + AllDirty(a.txn);
  }

  /** No step lets the writer overwrite a page of a snapshot that is still held. */
  lemma OpExposed(base: Snapshot, pgoldest: Txnid, a: Work, b: Work, step: WriterStep, m: Snapshot)
    requires TxnOk(base, a.txn, a.pg) && WriterNext(base.free, pgoldest, a, b, step)
    requires RecordsSpare(base.free, m) && SnapshotConserved(m) && m.next <= base.next
    requires pgoldest <= m.id + 1
    requires m.pages.Keys !! Exposed(a.txn, a.pg)
    ensures m.pages.Keys !! Exposed(b.txn, b.pg)
  {
    hide SnapshotConserved, TxnOk, AllDirty, Freed, Loose;
    match step
    case Consume(k) => assert Exposed(b.txn, b.pg) == Exposed(a.txn, a.pg) + base.free[k];
    case AllocNew(n, c) =>
      assert Exposed(b.txn, b.pg) == Exposed(a.txn, a.pg) + Run(a.txn.next, n);
      NewPagesSpare(base, a, n, m);
    case _ => OldExposed(base.free, pgoldest, a, b, step);
  }

  lemma DirtyExposed(t: Txn, pg: PgState)
    ensures AllDirty(t) <= Exposed(t, pg)
    decreases t
  {
    if t.up.Parent? { DirtyExposed(t.up.txn, t.up.saved); }
  }

  // --------------------------------------------------- saving the freeDB

  /** What the saved freeDB lists, record by record. */
  lemma SavedRecords(free: map<Txnid, set<Pgno>>, last: Txnid, left: map<Txnid, set<Pgno>>, id: Txnid,
                     freed: set<Pgno>, k: Txnid)
    requires forall j :: j in free ==> j < id
    requires forall j :: j in left ==> 1 <= j <= last
    requires last < id
    ensures k in SavedFree(free, last, left, id, freed) <==>
              (k in free && k > last) || k in left || (k == id && freed != {})
    ensures k in free && k > last ==> SavedFree(free, last, left, id, freed)[k] == free[k]
    ensures k in left ==> SavedFree(free, last, left, id, freed)[k] == left[k]
    ensures k == id && freed != {} ==> SavedFree(free, last, left, id, freed)[k] == freed
  {
  }

  /** The saved freeDB lists exactly what was unconsumed, re-filed or freed, once each. */
  lemma SavedListed(free: map<Txnid, set<Pgno>>, last: Txnid, left: map<Txnid, set<Pgno>>, id: Txnid,
                    freed: set<Pgno>, what: set<Pgno>)
    requires forall j :: j in free ==> 1 <= j < id
    requires last < id && Spread(left, last, what) && RecordsDisjoint(free)
    requires what !! freed && what !! Listed(free, last) && freed !! Listed(free, last)
    ensures Listed(SavedFree(free, last, left, id, freed), 0) == Listed(free, last) + what + freed
    ensures RecordsDisjoint(SavedFree(free, last, left, id, freed))
    ensures forall k :: k in SavedFree(free, last, left, id, freed) ==> 1 <= k <= id
  {
    var f := SavedFree(free, last, left, id, freed);
    forall k ensures SavedIs(f, free, last, left, id, freed, k) {
      SavedRecords(free, last, left, id, freed, k);
    }
    forall p | p in Listed(free, last) + what + freed ensures p in Listed(f, 0) {
      if p in Listed(free, last) {
        var k :| k in free && k > last && p in free[k];
        assert SavedIs(f, free, last, left, id, freed, k);
      } else if p in what {
        var k :| k in left && k > 0 && p in left[k];
        assert SavedIs(f, free, last, left, id, freed, k);
      } else {
        assert SavedIs(f, free, last, left, id, freed, id);
      }
    }
    forall p | p in Listed(f, 0) ensures p in Listed(free, last) + what + freed {
      var k :| k in f && k > 0 && p in f[k];
      assert SavedIs(f, free, last, left, id, freed, k);
    }
    forall j, k | j in f && k in f && j != k ensures f[j] !! f[k] {
      assert SavedIs(f, free, last, left, id, freed, j) && SavedIs(f, free, last, left, id, freed, k);
      SavedPart(free, last, left, what, j);
      SavedPart(free, last, left, what, k);
    }
    forall k | k in f ensures 1 <= k <= id {
      assert SavedIs(f, free, last, left, id, freed, k);
    }
  }

  ghost predicate SavedIs(f: map<Txnid, set<Pgno>>, free: map<Txnid, set<Pgno>>, last: Txnid,
                          left: map<Txnid, set<Pgno>>, id: Txnid, freed: set<Pgno>, k: Txnid) {
    && (k in f <==> (k in free && k > last) || k in left || (k == id && freed != {}))
    && (k in f ==> f[k] == if k in free && k > last then free[k] else if k in left then left[k] else freed)
  }

  lemma SavedPart(free: map<Txnid, set<Pgno>>, last: Txnid, left: map<Txnid, set<Pgno>>, what: set<Pgno>, k: Txnid)
    requires Spread(left, last, what)
    ensures k in free && k > last ==> free[k] <= Listed(free, last)
    ensures k in left ==> left[k] <= what
  {
  }

  // -------------------------------------------------------- consequences

  /** The page numbers mdb_page_alloc returns in a step. */
  function HandedOut(t: Txn, step: WriterStep): set<Pgno> {
    match step
    case AllocHead(first, n, _) => Run(first, n)
    case AllocNew(n, _) => Run(t.next, n)
    case AllocLoose(p, _) => {p}
    case _ => {}
  }

  lemma HandedOutExposed(base: Snapshot, pgoldest: Txnid, a: Work, b: Work, step: WriterStep)
    requires TxnOk(base, a.txn, a.pg) && WriterNext(base.free, pgoldest, a, b, step)
    ensures HandedOut(a.txn, step) <= Exposed(b.txn, b.pg)
  {
    if step.AllocLoose? { assert a.txn.loose <= a.txn.dirty; }
  }

  /** What a reclaimed record, a freed overflow run or a loose page is for: the
      transaction can hand out any run of it, or the page, right away. */
  lemma ReusedAtOnce(free: map<Txnid, set<Pgno>>, pgoldest: Txnid, a: Work, b: Work, step: WriterStep, first: Pgno,
                     n: nat, c: Image)
    requires WriterNext(free, pgoldest, a, b, step)
    ensures (step.Consume? && Run(first, n) <= free[step.k]) || (step.FreeOverflow? && Run(first, n) <= step.ps) ==>
              exists d :: WriterNext(free, pgoldest, b, d, AllocHead(first, n, c))
    ensures step.Loosen? ==> exists d :: WriterNext(free, pgoldest, b, d, AllocLoose(step.p, c))
  {
    hide Interval;
    var t, ps := b.txn, Run(first, n);
    var d := Work(t.(pages := t.pages + Fill(ps, c), dirty := t.dirty + ps), b.pg.(head := b.pg.head - ps));
    assert ps <= b.pg.head ==> WriterNext(free, pgoldest, b, d, AllocHead(first, n, c));
    if step.Loosen? {
      var e := b.(txn := t.(pages := t.pages[step.p := c], loose := t.loose - {step.p}));
      assert WriterNext(free, pgoldest, b, e, AllocLoose(step.p, c));
    }
  }

  lemma {:induction false} SpanSize(next: nat)
    requires next >= 2
    ensures |Span(next)| == next - 2
  {
    if next > 2 {
      SpanSize(next - 1);
      assert Span(next) == Span(next - 1) + {next - 1};
    } else {
      assert Span(next) == {};
    }
  }

  lemma PartitionSize(a: set<Pgno>, b: set<Pgno>, c: set<Pgno>, d: set<Pgno>, e: set<Pgno>, next: Pgno)
    requires Partition(a, b, c, d, e, next) && next >= 2
    ensures |a| + |b| + |c| + |d| + |e| + 2 == next
  {
    SpanSize(next);
    assert |a + b| == |a| + |b|;
    assert |a + b + c| == |a + b| + |c|;
    assert |a + b + c + d| == |a + b + c| + |d|;
    assert |a + b + c + d + e| == |a + b + c + d| + |e|;
  }

  ghost predicate LevelsConserved(free: map<Txnid, set<Pgno>>, t: Txn, pg: PgState)
    decreases t
  {
    && Conserved(free, t, pg)
    && |t.pages| + |pg.head| + |Freed(t)| + |Loose(t)| + |Listed(free, pg.last)| + 2 == t.next
    && (t.up.Parent? ==> LevelsConserved(free, t.up.txn, t.up.saved))
  }

  lemma {:induction false} TxnLevels(base: Snapshot, t: Txn, pg: PgState)
    requires TxnOk(base, t, pg) && base.next >= 2
    ensures LevelsConserved(base.free, t, pg)
    decreases t
  {
    PartitionSize(t.pages.Keys, pg.head, Freed(t), Loose(t), Listed(base.free, pg.last), t.next);
    assert |t.pages| == |t.pages.Keys|;
    if t.up.Parent? { TxnLevels(base, t.up.txn, t.up.saved); }
  }

  function Depth(t: Txn): nat { if t.up.Root? then 0 else 1 + Depth(t.up.txn) }

  /** The state an abort back to nesting level d would restore. */
  function Below(a: Work, d: nat): Work
    requires d <= Depth(a.txn)
    decreases a.txn
  {
    if Depth(a.txn) == d then a else Below(Work(a.txn.up.txn, a.txn.up.saved), d)
  }

  ghost predicate Ops(free: map<Txnid, set<Pgno>>, pgoldest: Txnid, ws: seq<Work>, steps: seq<WriterStep>) {
    && |ws| == |steps| + 1
    && forall i :: 0 <= i < |steps| ==> WriterNext(free, pgoldest, ws[i], ws[i + 1], steps[i])
  }

  /** Whatever a nested transaction and its own nested transactions do, the
      parent's lists and allocator state are unchanged below it ... */
  lemma {:induction false} NestedLeavesParent(free: map<Txnid, set<Pgno>>, pgoldest: Txnid, ws: seq<Work>,
                                              steps: seq<WriterStep>, d: nat)
    requires Ops(free, pgoldest, ws, steps)
    requires Depth(ws[0].txn) >= d && forall i :: 0 < i < |ws| ==> Depth(ws[i].txn) > d
    requires |steps| > 0 && Depth(ws[0].txn) == d ==> steps[0].BeginNested?
    ensures Below(ws[|ws| - 1], d) == Below(ws[0], d)
  {
    var n := |steps|;
    if n > 0 {
      if n > 1 {
        assert Ops(free, pgoldest, ws[..n], steps[..n - 1]);
        NestedLeavesParent(free, pgoldest, ws[..n], steps[..n - 1], d);
        assert ws[..n][n - 1] == ws[n - 1];
      }
      assert WriterNext(free, pgoldest, ws[n - 1], ws[n], steps[n - 1]);
      StepLeavesParent(free, pgoldest, ws[n - 1], ws[n], steps[n - 1], d);
    }
  }

  lemma StepLeavesParent(free: map<Txnid, set<Pgno>>, pgoldest: Txnid, a: Work, b: Work, step: WriterStep, d: nat)
    requires WriterNext(free, pgoldest, a, b, step)
    requires Depth(a.txn) >= d && Depth(b.txn) > d && (Depth(a.txn) == d ==> step.BeginNested?)
    ensures Below(b, d) == Below(a, d)
  {
    if step.CommitNested? {
      assert b.txn.up == a.txn.up.txn.up;
    }
  }

  /** ... so aborting it restores the parent exactly. */
  lemma NestedAbortRestores(free: map<Txnid, set<Pgno>>, pgoldest: Txnid, ws: seq<Work>, steps: seq<WriterStep>,
                            after: Work)
    requires |steps| > 0 && steps[0].BeginNested? && Ops(free, pgoldest, ws, steps)
    requires forall i :: 0 < i < |ws| ==> Depth(ws[i].txn) > Depth(ws[0].txn)
    requires WriterNext(free, pgoldest, ws[|ws| - 1], after, AbortNested) && Depth(after.txn) == Depth(ws[0].txn)
    ensures after == ws[0]
  {
    NestedLeavesParent(free, pgoldest, ws, steps, Depth(ws[0].txn));
  }
}
