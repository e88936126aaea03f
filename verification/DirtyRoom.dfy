/** The room left in the dirty list, over every run of a write transaction with
    transactions nested in it to any depth. */
module DirtyRoom {
  /*
   The last level of a stack is the transaction at work.  Its lists are sets of
   page numbers here: NestedMerge and SpillPrune have the arrays.
   */

  type Pgno = nat

  /** MDB_IDL_UM_MAX, the length a dirty list may have. */
  const UM_MAX: nat := 0x1_FFFF

  datatype Level = Level(dirty: set<Pgno>, spilled: set<Pgno>, room: int)

  datatype Step =
    | Dirty(p: Pgno)             // mdb_page_dirty of a page just allocated
    | CopyUp(p: Pgno)            // a page that only an ancestor has dirty gets a copy here
    | Spill(ps: set<Pgno>)       // mdb_page_spill with mdb_page_flush
    | Unspill(p: Pgno)           // mdb_page_unspill of a page spilled here or in an ancestor
    | FreeOverflow(p: Pgno)      // mdb_ovpage_free of a page dirty or spilled in a top-level transaction
    | Begin                      // mdb_txn_begin with a parent
    | Commit                     // mdb_txn_commit into the parent
    | Abort                      // mdb_txn_abort of a nested transaction

  /** Which list mdb_page_get finds the page in, asking the transaction first and then its ancestors. */
  datatype Found = InDirty | InSpilled | Nowhere

  function Lookup(s: seq<Level>, p: Pgno): Found {
    if s == [] then Nowhere else
    var l := s[|s| - 1];
    if p in l.spilled then InSpilled else if p in l.dirty then InDirty else Lookup(s[..|s| - 1], p)
  }

  predicate Spilled(s: seq<Level>, p: Pgno) { exists i :: 0 <= i < |s| && p in s[i].spilled }

  predicate Unused(s: seq<Level>, p: Pgno) { forall i :: 0 <= i < |s| ==> p !in s[i].dirty && p !in s[i].spilled }

  /** The parent's lists once the child's changes are in them. */
  function Merged(parent: Level, child: Level): Level {
    Level(parent.dirty - child.spilled + child.dirty, parent.spilled - child.dirty + child.spilled, child.room)
  }

  function Act(l: Level, step: Step): Level {
    match step
    case Dirty(p) => l.(dirty := l.dirty + {p}, room := l.room - 1)
    case CopyUp(p) => l.(dirty := l.dirty + {p})
    case Spill(ps) => Level(l.dirty - ps, l.spilled + ps, l.room + |ps|)
    case Unspill(p) => Level(l.dirty + {p}, l.spilled - {p}, l.room - 1)
    case FreeOverflow(p) => if p in l.dirty then l.(dirty := l.dirty - {p}, room := l.room + 1)
                            else l.(spilled := l.spilled - {p})
    case _ => l
  }

  predicate Enabled(up: seq<Level>, l: Level, step: Step) {
    match step
    case Dirty(p) => Unused(up + [l], p) && l.room != 0
    case CopyUp(p) => p !in l.dirty && Lookup(up + [l], p) == InDirty
    case Spill(ps) => ps <= l.dirty && forall p :: p in ps ==> !Spilled(up, p)
    case Unspill(p) => Lookup(up + [l], p) == InSpilled && l.room != 0
    case FreeOverflow(p) => up == [] && (p in l.dirty || p in l.spilled)
    case _ => false
  }

  ghost predicate Next(s: seq<Level>, s': seq<Level>, step: Step) {
    && s != []
    && var up, l := s[..|s| - 1], s[|s| - 1];
    match step
    case Begin => s' == s + [Level({}, {}, l.room)]
    case Commit => up != [] && s' == up[..|up| - 1] + [Merged(up[|up| - 1], l)]
    case Abort => up != [] && s' == up
    case _ => Enabled(up, l, step) && s' == up + [Act(l, step)]
  }

  /** A top-level write transaction starts with nothing dirty. */
  function Start(): seq<Level> { [Level({}, {}, UM_MAX)] }

  ghost predicate IsRun(run: seq<seq<Level>>, steps: seq<Step>) {
    && |run| == |steps| + 1 && run[0] == Start()
    && forall i :: 0 <= i < |steps| ==> Next(run[i], run[i + 1], steps[i])
  }

  // ----------------------------------------------------------- invariant

  /** The pages that would be dirty if all nested transactions committed. */
  function Net(s: seq<Level>): set<Pgno> {
    if s == [] then {} else Net(s[..|s| - 1]) - s[|s| - 1].spilled + s[|s| - 1].dirty
  }

  ghost predicate LevelOk(s: seq<Level>) {
    s != [] ==>
      var l := s[|s| - 1];
      l.dirty !! l.spilled && l.room >= 0 && UM_MAX - l.room == |Net(s)|
  }

  ghost predicate Inv(s: seq<Level>) { s != [] && forall i :: 0 <= i <= |s| ==> LevelOk(s[..i]) }

  lemma {:induction false} LookupNet(s: seq<Level>, p: Pgno)
    requires forall i :: 0 <= i <= |s| ==> LevelOk(s[..i])
    ensures Lookup(s, p).InDirty? <==> p in Net(s)
    ensures Lookup(s, p).InSpilled? ==> Spilled(s, p)
  {
    if s != [] {
      var up := s[..|s| - 1];
      assert LevelOk(s[..|s|]) && s[..|s|] == s;
      forall i | 0 <= i <= |up| ensures LevelOk(up[..i]) { assert up[..i] == s[..i]; }
      LookupNet(up, p);
      if Lookup(s, p).InSpilled? && p !in s[|s| - 1].spilled {
        var i :| 0 <= i < |up| && p in up[i].spilled;
        assert p in s[i].spilled;
      }
    }
  }

  lemma {:induction false} UnusedNet(s: seq<Level>, p: Pgno)
    requires Unused(s, p)
    ensures p !in Net(s)
  {
    if s != [] { UnusedNet(s[..|s| - 1], p); }
  }

  lemma NetLast(up: seq<Level>, l: Level)
    ensures Net(up + [l]) == Net(up) - l.spilled + l.dirty
  {
    assert (up + [l])[..|up|] == up;
  }

  lemma Split(s: seq<Level>)
    requires Inv(s)
    ensures var up, l := s[..|s| - 1], s[|s| - 1];
            s == up + [l] && LevelOk(s) && forall i :: 0 <= i <= |up| ==> LevelOk(up[..i])
  {
    var up := s[..|s| - 1];
    assert s[..|s|] == s && LevelOk(s[..|s|]);
    forall i | 0 <= i <= |up| ensures LevelOk(up[..i]) { assert up[..i] == s[..i]; }
  }

  lemma Rejoin(up: seq<Level>, l: Level)
    requires forall i :: 0 <= i <= |up| ==> LevelOk(up[..i])
    requires LevelOk(up + [l])
    ensures Inv(up + [l])
  {
    var s := up + [l];
    forall i | 0 <= i <= |s| ensures LevelOk(s[..i]) {
      if i <= |up| { assert s[..i] == up[..i]; } else { assert s[..i] == s; }
    }
  }

  lemma Sizes(a: set<Pgno>, b: set<Pgno>)
    requires b <= a
    ensures |a - b| == |a| - |b|
  {
    assert a == (a - b) + b;
  }

  lemma Larger(a: set<Pgno>, p: Pgno)
    requires p !in a
    ensures |a + {p}| == |a| + 1
  {
  }

  lemma LevelIs(up: seq<Level>, l: Level)
    ensures LevelOk(up + [l]) <==>
              l.dirty !! l.spilled && l.room >= 0 && UM_MAX - l.room == |Net(up) - l.spilled + l.dirty|
  {
    NetLast(up, l);
  }

  lemma SpillKeeps(n: set<Pgno>, l: Level, ps: set<Pgno>)
    requires l.dirty !! l.spilled && ps <= l.dirty
    ensures |n - (l.spilled + ps) + (l.dirty - ps)| == |n - l.spilled + l.dirty| - |ps|
  {
    assert n - (l.spilled + ps) + (l.dirty - ps) == n - l.spilled + l.dirty - ps;
    Sizes(n - l.spilled + l.dirty, ps);
  }

  lemma DirtyKeeps(n: set<Pgno>, l: Level, p: Pgno)
    requires l.dirty !! l.spilled && p !in n - l.spilled + l.dirty
    ensures |n - (l.spilled - {p}) + (l.dirty + {p})| == |n - l.spilled + l.dirty| + 1
    ensures |n - l.spilled + (l.dirty + {p})| == |n - l.spilled + l.dirty| + 1
  {
    assert n - (l.spilled - {p}) + (l.dirty + {p}) == n - l.spilled + l.dirty + {p};
    assert n - l.spilled + (l.dirty + {p}) == n - l.spilled + l.dirty + {p};
    Larger(n - l.spilled + l.dirty, p);
  }

  lemma DirtyAct(up: seq<Level>, l: Level, p: Pgno)
    requires Inv(up + [l]) && Enabled(up, l, Dirty(p))
    ensures LevelOk(up + [Act(l, Dirty(p))])
  {
    hide Lookup, Net, LevelOk, Inv;
    Split(up + [l]);
    assert (up + [l])[..|up|] == up && (up + [l])[|up|] == l;
    LevelIs(up, l);
    LevelIs(up, Act(l, Dirty(p)));
    NetLast(up, l);
    UnusedNet(up + [l], p);
    DirtyKeeps(Net(up), l, p);
  }

  lemma CopyAct(up: seq<Level>, l: Level, p: Pgno)
    requires Inv(up + [l]) && Enabled(up, l, CopyUp(p))
    ensures LevelOk(up + [Act(l, CopyUp(p))])
  {
    hide Lookup, Net, LevelOk, Inv;
    Split(up + [l]);
    assert (up + [l])[..|up|] == up && (up + [l])[|up|] == l;
    LevelIs(up, l);
    LevelIs(up, Act(l, CopyUp(p)));
    NetLast(up, l);
    FoundNet(up + [l], p);
    NotSpilled(up, l, p);
    assert Net(up) - l.spilled + (l.dirty + {p}) == Net(up) - l.spilled + l.dirty;
  }

  lemma UnspillAct(up: seq<Level>, l: Level, p: Pgno)
    requires Inv(up + [l]) && Enabled(up, l, Unspill(p))
    ensures LevelOk(up + [Act(l, Unspill(p))])
  {
    hide Lookup, Net, LevelOk, Inv;
    Split(up + [l]);
    assert (up + [l])[..|up|] == up && (up + [l])[|up|] == l;
    LevelIs(up, l);
    LevelIs(up, Act(l, Unspill(p)));
    NetLast(up, l);
    FoundNet(up + [l], p);
    DirtyKeeps(Net(up), l, p);
  }

  lemma SpillAct(up: seq<Level>, l: Level, ps: set<Pgno>)
    requires Inv(up + [l]) && Enabled(up, l, Spill(ps))
    ensures LevelOk(up + [Act(l, Spill(ps))])
  {
    hide Lookup, Net, LevelOk, Inv;
    Split(up + [l]);
    assert (up + [l])[..|up|] == up && (up + [l])[|up|] == l;
    LevelIs(up, l);
    LevelIs(up, Act(l, Spill(ps)));
    NetLast(up, l);
    SpillKeeps(Net(up), l, ps);
  }

  lemma FreeAct(up: seq<Level>, l: Level, p: Pgno)
    requires Inv(up + [l]) && Enabled(up, l, FreeOverflow(p))
    ensures LevelOk(up + [Act(l, FreeOverflow(p))])
  {
    hide Lookup, Net, LevelOk, Inv;
    Split(up + [l]);
    assert (up + [l])[..|up|] == up && (up + [l])[|up|] == l;
    LevelIs(up, l);
    LevelIs(up, Act(l, FreeOverflow(p)));
    NetLast(up, l);
    assert Net(up) == {} by { NoNet(); }
    assert p in l.dirty ==> l.dirty - {p} + {p} == l.dirty;
  }

  /** What the transaction at work does keeps room and pages in step. */
  lemma ActKeeps(up: seq<Level>, l: Level, step: Step)
    requires Inv(up + [l]) && Enabled(up, l, step)
    ensures LevelOk(up + [Act(l, step)])
  {
    hide LevelOk, Inv, Enabled, Act;
    match step
    case Dirty(p) => DirtyAct(up, l, p);
    case CopyUp(p) => CopyAct(up, l, p);
    case Spill(ps) => SpillAct(up, l, ps);
    case Unspill(p) => UnspillAct(up, l, p);
    case FreeOverflow(p) => FreeAct(up, l, p);
    case _ => NoAct(up, l, step);
  }

  lemma NoAct(up: seq<Level>, l: Level, step: Step)
    requires Enabled(up, l, step)
    ensures !step.Begin? && !step.Commit? && !step.Abort?
  {
  }

  lemma NoNet()
    ensures Net([]) == {}
  {
  }

  lemma NotSpilled(up: seq<Level>, l: Level, p: Pgno)
    requires Lookup(up + [l], p) == InDirty
    ensures p !in l.spilled
  {
  }

  lemma FoundNet(s: seq<Level>, p: Pgno)
    requires Inv(s)
    ensures Lookup(s, p).InDirty? <==> p in Net(s)
  {
    LookupNet(s, p);
  }

  lemma CommitKeeps(up: seq<Level>, parent: Level, child: Level)
    requires Inv(up + [parent] + [child])
    ensures LevelOk(up + [Merged(parent, child)]) && Net(up + [Merged(parent, child)]) == Net(up + [parent] + [child])
  {
    hide Net, LevelOk;
    var s := up + [parent];
    Split(s + [child]);
    assert (s + [child])[..|s|] == s && s[..|s|] == s;
    assert LevelOk(s[..|s|]);
    NetLast(s, child);
    NetLast(up, parent);
    NetLast(up, Merged(parent, child));
    LevelIs(up, parent);
    LevelIs(s, child);
    LevelIs(up, Merged(parent, child));
    MergedNet(Net(up), parent, child);
  }

  lemma MergedNet(n: set<Pgno>, parent: Level, child: Level)
    requires parent.dirty !! parent.spilled && child.dirty !! child.spilled
    ensures var m := Merged(parent, child);
            m.dirty !! m.spilled && n - m.spilled + m.dirty ==
                n - parent.spilled + parent.dirty - child.spilled + child.dirty
  {
  }

  lemma StepInv(s: seq<Level>, s': seq<Level>, step: Step)
    requires Inv(s) && Next(s, s', step)
    ensures Inv(s')
  {
    hide Net, Lookup, LevelOk, Enabled, Merged, Act;
    Split(s);
    var up, l := s[..|s| - 1], s[|s| - 1];
    match step
    case Begin =>
      LevelIs(up, l);
      LevelIs(s, Level({}, {}, l.room));
      NetLast(up, l);
      assert Net(s) - {} + {} == Net(s);
      Rejoin(s, Level({}, {}, l.room));
    case Commit =>
      var top, parent := up[..|up| - 1], up[|up| - 1];
      assert up == top + [parent];
      CommitKeeps(top, parent, l);
      forall i | 0 <= i <= |top| ensures LevelOk(top[..i]) { assert top[..i] == up[..i]; }
      Rejoin(top, Merged(parent, l));
    case Abort =>
    case _ =>
      ActKeeps(up, l, step);
      Rejoin(up, Act(l, step));
  }

  lemma {:induction false} RunInv(run: seq<seq<Level>>, steps: seq<Step>, i: nat)
    requires IsRun(run, steps) && i < |run|
    ensures Inv(run[i])
  {
    if i == 0 {
      Rejoin([], Level({}, {}, UM_MAX));
    } else {
      RunInv(run, steps, i - 1);
      assert Next(run[i - 1], run[i - 1 + 1], steps[i - 1]);
      StepInv(run[i - 1], run[i], steps[i - 1]);
    }
  }

  // ------------------------------------------------------------- theorems

  /** In every run, a commit into a top-level parent takes UM_MAX minus the room
      left for the length of the merged list, and is right. */
  lemma RoomGivesLength(run: seq<seq<Level>>, steps: seq<Step>, i: nat)
    requires IsRun(run, steps) && i < |run| && |run[i]| == 2
    ensures var parent, child := run[i][0], run[i][1]; UM_MAX - child.room == |Merged(parent, child).dirty|
  {
    RunInv(run, steps, i);
    var s := run[i];
    var parent, child := s[0], s[1];
    assert s == [] + [parent] + [child];
    CommitKeeps([], parent, child);
    NetLast([], Merged(parent, child));
  }

  /** In every run and at every depth the merged list fits, and so does a copy of
      a page that an ancestor has dirty, although it takes no room. */
  lemma ListsFit(run: seq<seq<Level>>, steps: seq<Step>, i: nat)
    requires IsRun(run, steps) && i < |run|
    ensures |run[i]| >= 2 ==> |Merged(run[i][|run[i]| - 2], run[i][|run[i]| - 1]).dirty| <= UM_MAX
    ensures forall p, s' :: Next(run[i], s', CopyUp(p)) ==> |run[i][|run[i]| - 1].dirty| < UM_MAX
  {
    RunInv(run, steps, i);
    var s := run[i];
    Split(s);
    var up, l := s[..|s| - 1], s[|s| - 1];
    NetLast(up, l);
    if |s| >= 2 {
      var top, parent := up[..|up| - 1], up[|up| - 1];
      assert up == top + [parent];
      CommitKeeps(top, parent, l);
      NetLast(top, Merged(parent, l));
      Sizes(Net(s), Merged(parent, l).dirty);
    }
    forall p, s' | Next(s, s', CopyUp(p)) ensures |l.dirty| < UM_MAX {
      LookupNet(s, p);
      Sizes(Net(s), l.dirty + {p});
    }
  }
}
