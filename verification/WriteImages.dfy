/** What a write transaction reads: the image each of its pages has, in terms of the operations made so far. */
module WriteImages {
  import opened Options
  import opened WriteTxn

  /** The image that an operation gives to a page, where next is the first page
      number not in use yet. */
  function Given(next: Pgno, step: WriterStep, p: Pgno): Option<Image> {
    match step
    case AllocHead(first, n, c) => if first <= p < first + n then Some(c) else None
    case AllocNew(n, c) => if next <= p < next + n then Some(c) else None
    case AllocLoose(q, c) => if p == q then Some(c) else None
    case Edit(q, c) => if p == q then Some(c) else None
    case _ => None
  }

  /** How many nested transactions are open before operation j. */
  function Level(steps: seq<WriterStep>, j: nat): int
    requires j <= |steps|
  {
    if j == 0 then 0
    else
      Level(steps, j - 1)
      + if steps[j - 1].BeginNested? then 1
        else if steps[j - 1].CommitNested? || steps[j - 1].AbortNested? then -1 else 0
  }

  /** Operation k aborts a nested transaction within which operation i was made. */
  ghost predicate AbortedBy(steps: seq<WriterStep>, i: nat, k: nat) {
    && i < k < |steps| && steps[k].AbortNested?
    && forall j :: i < j <= k ==> Level(steps, j) >= Level(steps, k)
  }

  /** None of the first n operations has undone operation i. */
  ghost predicate Standing(steps: seq<WriterStep>, n: nat, i: nat) {
    i < n <= |steps| && forall k :: i < k < n ==> !AbortedBy(steps, i, k)
  }

  /** Operation i is one of the first n, is not undone, and gives page p an image. */
  ghost predicate Gives(ws: seq<Work>, steps: seq<WriterStep>, n: nat, i: nat, p: Pgno)
    requires |ws| == |steps| + 1
  {
    Standing(steps, n, i) && Given(ws[i].txn.next, steps[i], p).Some?
  }

  /** After n operations c is the image of page p: it comes from the last
      operation that gave it one and was not undone, or from the last commit. */
  ghost predicate Latest(pages: map<Pgno, Image>, ws: seq<Work>, steps: seq<WriterStep>, n: nat, p: Pgno, c: Image)
    requires |ws| == |steps| + 1
  {
    || (exists i: nat ::
          && Gives(ws, steps, n, i, p) && Given(ws[i].txn.next, steps[i], p) == Some(c)
          && forall j: nat :: Gives(ws, steps, n, j, p) ==> j <= i)
    || (p in pages && pages[p] == c && forall j: nat :: !Gives(ws, steps, n, j, p))
  }

  /** A transaction that has just begun. */
  function Started(base: Snapshot): Work { Work(Txn(base.pages, base.next, {}, {}, {}, Root), PgState({}, 0)) }

  lemma StepImages(free: map<Txnid, set<Pgno>>, pgoldest: Txnid, a: Work, b: Work, step: WriterStep, p: Pgno)
    requires WriterNext(free, pgoldest, a, b, step) && !step.AbortNested? && p in b.txn.pages
    ensures var c := Given(a.txn.next, step, p);
            if c.Some? then b.txn.pages[p] == c.value else p in a.txn.pages && a.txn.pages[p] == b.txn.pages[p]
  {
  }

  lemma StepLevel(free: map<Txnid, set<Pgno>>, pgoldest: Txnid, a: Work, b: Work, step: WriterStep)
    requires WriterNext(free, pgoldest, a, b, step)
    ensures Depth(b.txn) == Depth(a.txn) +
              if step.BeginNested? then 1 else if step.CommitNested? || step.AbortNested? then -1 else 0
  {
    if step.CommitNested? {
      assert b.txn.up == a.txn.up.txn.up;
    }
  }

  lemma {:induction false} LevelIsDepth(free: map<Txnid, set<Pgno>>, pgoldest: Txnid, ws: seq<Work>,
                                        steps: seq<WriterStep>, j: nat)
    requires Ops(free, pgoldest, ws, steps) && j <= |steps| && ws[0].txn.up.Root?
    ensures Level(steps, j) == Depth(ws[j].txn)
  {
    if j > 0 {
      LevelIsDepth(free, pgoldest, ws, steps, j - 1);
      assert WriterNext(free, pgoldest, ws[j - 1], ws[j - 1 + 1], steps[j - 1]);
      StepLevel(free, pgoldest, ws[j - 1], ws[j], steps[j - 1]);
    }
  }

  /** Where the nested transaction that is open at n began. */
  lemma {:induction false} Opened(steps: seq<WriterStep>, n: nat, d: int) returns (b: nat)
    requires n <= |steps| && 0 <= d < Level(steps, n)
    ensures b < n && steps[b].BeginNested? && Level(steps, b) == d
    ensures forall j :: b < j <= n ==> Level(steps, j) > d
  {
    if Level(steps, n - 1) <= d {
      b := n - 1;
    } else {
      b := Opened(steps, n - 1, d);
    }
  }

  /** An operation other than an abort undoes nothing. */
  lemma GivesNext(ws: seq<Work>, steps: seq<WriterStep>, n: nat, j: nat, p: Pgno)
    requires |ws| == |steps| + 1 && n < |steps| && !steps[n].AbortNested?
    ensures Gives(ws, steps, n + 1, j, p) <==>
              Gives(ws, steps, n, j, p) || (j == n && Given(ws[n].txn.next, steps[n], p).Some?)
  {
  }

  /** An abort undoes what was done since the transaction began, and no more. */
  lemma GivesAborted(ws: seq<Work>, steps: seq<WriterStep>, n: nat, b: nat, j: nat, p: Pgno)
    requires |ws| == |steps| + 1 && b < n < |steps| && steps[n].AbortNested? && steps[b].BeginNested?
    requires Level(steps, n) == Level(steps, b) + 1 && forall l :: b < l <= n ==> Level(steps, l) > Level(steps, b)
    ensures Gives(ws, steps, n + 1, j, p) <==> Gives(ws, steps, b, j, p)
  {
    if b <= j < n {
      assert AbortedBy(steps, j, n);
    } else if j < b {
      forall k | b <= k <= n ensures !AbortedBy(steps, j, k) {
        assert k > b ==> Level(steps, b) < Level(steps, k);
      }
    }
  }

  /** In every run of a write transaction each of its pages has the image given
      by the last operation on it that no abort has undone. */
  lemma {:induction false} LatestImages(base: Snapshot, pgoldest: Txnid, ws: seq<Work>, steps: seq<WriterStep>, n: nat)
    requires Ops(base.free, pgoldest, ws, steps) && ws[0] == Started(base) && n <= |steps|
    ensures forall p :: p in ws[n].txn.pages ==> Latest(base.pages, ws, steps, n, p, ws[n].txn.pages[p])
  {
    if n > 0 {
      var m := n - 1;
      assert WriterNext(base.free, pgoldest, ws[m], ws[m + 1], steps[m]);
      if steps[m].AbortNested? {
        var b := Restored(base, pgoldest, ws, steps, m);
        LatestImages(base, pgoldest, ws, steps, b);
        forall p | p in ws[n].txn.pages ensures Latest(base.pages, ws, steps, n, p, ws[n].txn.pages[p]) {
          forall j: nat ensures Gives(ws, steps, n, j, p) <==> Gives(ws, steps, b, j, p) {
            GivesAborted(ws, steps, m, b, j, p);
          }
          LatestAlike(base.pages, ws, steps, b, n, p, ws[b].txn.pages[p]);
        }
      } else {
        LatestImages(base, pgoldest, ws, steps, m);
        forall p | p in ws[n].txn.pages ensures Latest(base.pages, ws, steps, n, p, ws[n].txn.pages[p]) {
          StepImages(base.free, pgoldest, ws[m], ws[n], steps[m], p);
          forall j: nat
            ensures Gives(ws, steps, n, j, p) <==>
                      Gives(ws, steps, m, j, p) || (j == m && Given(ws[m].txn.next, steps[m], p).Some?)
          {
            GivesNext(ws, steps, m, j, p);
          }
          if Given(ws[m].txn.next, steps[m], p).Some? {
            assert Gives(ws, steps, n, m, p);
          } else {
            LatestAlike(base.pages, ws, steps, m, n, p, ws[m].txn.pages[p]);
          }
        }
      }
    }
  }

  lemma LatestAlike(pages: map<Pgno, Image>, ws: seq<Work>, steps: seq<WriterStep>, m: nat, n: nat, p: Pgno, c: Image)
    requires |ws| == |steps| + 1 && Latest(pages, ws, steps, m, p, c)
    requires forall j: nat :: Gives(ws, steps, n, j, p) <==> Gives(ws, steps, m, j, p)
    ensures Latest(pages, ws, steps, n, p, c)
  {
    hide Gives;
  }

  lemma AbortInside(free: map<Txnid, set<Pgno>>, pgoldest: Txnid, a: Work, b: Work)
    requires WriterNext(free, pgoldest, a, b, AbortNested)
    ensures Depth(a.txn) >= 1 && Depth(b.txn) == Depth(a.txn) - 1
  {
  }

  /** The abort of a nested transaction brings back the state in which it began. */
  lemma Restored(base: Snapshot, pgoldest: Txnid, ws: seq<Work>, steps: seq<WriterStep>, m: nat) returns (b: nat)
    requires Ops(base.free, pgoldest, ws, steps) && ws[0].txn.up.Root? && m < |steps| && steps[m].AbortNested?
    ensures b < m && steps[b].BeginNested? && ws[m + 1] == ws[b]
    ensures Level(steps, m) == Level(steps, b) + 1 && forall l :: b < l <= m ==> Level(steps, l) > Level(steps, b)
  {
    hide WriterNext, Depth;
    assert WriterNext(base.free, pgoldest, ws[m], ws[m + 1], steps[m]);
    AbortInside(base.free, pgoldest, ws[m], ws[m + 1]);
    forall j | 0 <= j <= |steps| ensures Level(steps, j) == Depth(ws[j].txn) {
      LevelIsDepth(base.free, pgoldest, ws, steps, j);
    }
    b := Opened(steps, m, Level(steps, m) - 1);
    var inner, done := ws[b..m + 1], steps[b..m];
    assert Ops(base.free, pgoldest, inner, done) by {
      forall i | 0 <= i < |done| ensures WriterNext(base.free, pgoldest, inner[i], inner[i + 1], done[i]) {
        assert WriterNext(base.free, pgoldest, ws[b + i], ws[b + i + 1], steps[b + i]);
      }
    }
    NestedAbortRestores(base.free, pgoldest, inner, done, ws[m + 1]);
  }

  // ------------------------------------------- pages are touched before they are written

  /** An operation that makes a page dirty at the level it is made on. */
  predicate Dirties(next: Pgno, step: WriterStep, p: Pgno) {
    (step.CopyDown? && step.p == p) || (!step.Edit? && Given(next, step, p).Some?)
  }

  /** Since the transaction open after n operations began, nested ones that it
      has taken in included, page p was touched or allocated. */
  ghost predicate TouchedHere(ws: seq<Work>, steps: seq<WriterStep>, n: nat, p: Pgno)
    requires |ws| == |steps| + 1
  {
    exists i: nat ::
      && i < n <= |steps| && Dirties(ws[i].txn.next, steps[i], p)
      && forall l :: i < l <= n ==> Level(steps, l) >= Level(steps, n)
  }

  lemma EditsDirty(free: map<Txnid, set<Pgno>>, pgoldest: Txnid, a: Work, b: Work, step: WriterStep)
    requires WriterNext(free, pgoldest, a, b, step) && step.Edit?
    ensures step.p in a.txn.dirty
  {
  }

  lemma StepDirty(free: map<Txnid, set<Pgno>>, pgoldest: Txnid, a: Work, b: Work, step: WriterStep, p: Pgno)
    requires WriterNext(free, pgoldest, a, b, step) && !step.AbortNested? && p in b.txn.dirty + b.txn.loose
    ensures Dirties(a.txn.next, step, p) || (p in a.txn.dirty + a.txn.loose && !step.BeginNested?)
            || (step.CommitNested? && a.txn.up.Parent? && p in a.txn.up.txn.dirty + a.txn.up.txn.loose)
  {
  }

  lemma LevelNext(steps: seq<WriterStep>, n: nat)
    requires n < |steps|
    ensures Level(steps, n + 1) == Level(steps, n) +
              if steps[n].BeginNested? then 1 else if steps[n].CommitNested? || steps[n].AbortNested? then -1 else 0
  {
  }

  lemma TouchedLater(ws: seq<Work>, steps: seq<WriterStep>, b: nat, n: nat, p: Pgno)
    requires |ws| == |steps| + 1 && b <= n <= |steps| && TouchedHere(ws, steps, b, p)
    requires forall l :: b <= l <= n ==> Level(steps, l) >= Level(steps, n)
    ensures TouchedHere(ws, steps, n, p)
  {
    hide Level, Dirties;
    var i: nat :| i < b && Dirties(ws[i].txn.next, steps[i], p)
                  && forall l :: i < l <= b ==> Level(steps, l) >= Level(steps, b);
    assert i < n && Dirties(ws[i].txn.next, steps[i], p);
  }

  /** The nested transaction that is open at m began in the state its parent is still in. */
  lemma OpenedIn(base: Snapshot, pgoldest: Txnid, ws: seq<Work>, steps: seq<WriterStep>, m: nat) returns (b: nat)
    requires Ops(base.free, pgoldest, ws, steps) && ws[0].txn.up.Root? && m <= |steps| && ws[m].txn.up.Parent?
    ensures b < m && ws[m].txn.up.txn == ws[b].txn
    ensures Level(steps, m) == Level(steps, b) + 1 && forall l :: b < l <= m ==> Level(steps, l) > Level(steps, b)
  {
    hide WriterNext;
    forall j | 0 <= j <= |steps| ensures Level(steps, j) == Depth(ws[j].txn) {
      LevelIsDepth(base.free, pgoldest, ws, steps, j);
    }
    b := Opened(steps, m, Level(steps, m) - 1);
    var inner, done := ws[b..m + 1], steps[b..m];
    assert Ops(base.free, pgoldest, inner, done) by {
      forall i | 0 <= i < |done| ensures WriterNext(base.free, pgoldest, inner[i], inner[i + 1], done[i]) {
        assert WriterNext(base.free, pgoldest, ws[b + i], ws[b + i + 1], steps[b + i]);
      }
    }
    NestedLeavesParent(base.free, pgoldest, inner, done, Depth(ws[b].txn));
    BelowSelf(ws[b]);
    BelowParent(ws[m], Depth(ws[b].txn));
  }

  lemma BelowSelf(a: Work)
    ensures Below(a, Depth(a.txn)) == a
  {
  }

  lemma BelowParent(a: Work, d: nat)
    requires a.txn.up.Parent? && Depth(a.txn) == d + 1
    ensures Below(a, d) == Work(a.txn.up.txn, a.txn.up.saved)
  {
  }

  /** One operation later. */
  lemma StepTouched(base: Snapshot, pgoldest: Txnid, ws: seq<Work>, steps: seq<WriterStep>, n: nat, p: Pgno)
    requires Ops(base.free, pgoldest, ws, steps) && ws[0] == Started(base) && 0 < n <= |steps|
    requires p in ws[n].txn.dirty + ws[n].txn.loose
    ensures TouchedHere(ws, steps, n, p)
    decreases n, 0
  {
    hide WriterNext, Level, TouchedHere, Dirties;
    var m := n - 1;
    assert WriterNext(base.free, pgoldest, ws[m], ws[m + 1], steps[m]);
    LevelNext(steps, m);
    if steps[m].AbortNested? {
      var b := Restored(base, pgoldest, ws, steps, m);
      DirtyIsTouched(base, pgoldest, ws, steps, b);
      TouchedLater(ws, steps, b, n, p);
    } else {
      StepDirty(base.free, pgoldest, ws[m], ws[n], steps[m], p);
      if Dirties(ws[m].txn.next, steps[m], p) {
        TouchedNow(ws, steps, n, p);
      } else if p in ws[m].txn.dirty + ws[m].txn.loose && !steps[m].BeginNested? {
        DirtyIsTouched(base, pgoldest, ws, steps, m);
        TouchedLater(ws, steps, m, n, p);
      } else {
        var b := OpenedIn(base, pgoldest, ws, steps, m);
        DirtyIsTouched(base, pgoldest, ws, steps, b);
        TouchedLater(ws, steps, b, n, p);
      }
    }
  }

  lemma TouchedNow(ws: seq<Work>, steps: seq<WriterStep>, n: nat, p: Pgno)
    requires |ws| == |steps| + 1 && 0 < n <= |steps| && Dirties(ws[n - 1].txn.next, steps[n - 1], p)
    ensures TouchedHere(ws, steps, n, p)
  {
    hide Dirties, Level;
  }

  /** In every run a transaction edits a page only after it has itself touched or
      allocated it, however often its ancestors have. */
  lemma {:induction false} DirtyIsTouched(base: Snapshot, pgoldest: Txnid, ws: seq<Work>, steps: seq<WriterStep>,
                                          n: nat)
    requires Ops(base.free, pgoldest, ws, steps) && ws[0] == Started(base) && n <= |steps|
    ensures forall p :: p in ws[n].txn.dirty + ws[n].txn.loose ==> TouchedHere(ws, steps, n, p)
    ensures n < |steps| && steps[n].Edit? ==> TouchedHere(ws, steps, n, steps[n].p)
    decreases n, 1
  {
    hide WriterNext, Level;
    if n > 0 {
      var m := n - 1;
      assert WriterNext(base.free, pgoldest, ws[m], ws[m + 1], steps[m]);
      forall p | p in ws[n].txn.dirty + ws[n].txn.loose ensures TouchedHere(ws, steps, n, p) {
        StepTouched(base, pgoldest, ws, steps, n, p);
      }
    }
    if n < |steps| && steps[n].Edit? {
      assert WriterNext(base.free, pgoldest, ws[n], ws[n + 1], steps[n]);
      EditsDirty(base.free, pgoldest, ws[n], ws[n + 1], steps[n]);
    }
  }
}
