/** Growing the memory map before a write transaction. */
module ResizeLoop {
  /*
   Sizes are 64-bit machine words.  What the disk answers to each step is a
   parameter, and so is the test of the used fraction against the trigger.
   */

  import opened Options

  datatype Outcome<T> =
    | Ok(value: T)
    | Err      // an error code the caller gets back
    | Panic    // an assertion, an expect or a checked addition failed

  const W: nat := 0x1_0000_0000_0000_0000

  type Word = x: int | 0 <= x < W

  datatype Settings = Settings(minStep: nat, maxStep: nat, ratio: nat) {
    /** What DatabaseResizeSettings::validate asserts. */
    predicate Valid() { 0 < minStep <= maxStep < W && 0 < ratio }
  }

  /** What the system answers while one step is taken. */
  datatype Fate = QueryFails | Free(bytes: Word, mapped: bool)

  /** What one call reads: `trigger` is handed the used and the mapped bytes. */
  datatype Env = Env(settings: Settings, page: nat, lastPgno: nat, trigger: (nat, nat) -> bool, overflowChecks: bool) {
    /** Page sizes are powers of two, so they divide the range of a word. */
    predicate Valid() { settings.Valid() && 0 < page < W && W % page == 0 && lastPgno < W }

    function Occupied(): nat { page * lastPgno }
  }

  datatype Trace = Trace(outcome: Outcome<()>, size: nat, steps: nat)

  // ---------------------------------------------------------------- arithmetic

  function Clamp(x: nat, lo: nat, hi: nat): nat { if x < lo then lo else if x > hi then hi else x }

  function AlignUp(x: nat, page: nat): nat
    requires page > 0
  {
    if x % page != 0 then x + (page - x % page) else x
  }

  lemma DivisibleOnce(q: nat, page: nat)
    requires page > 0
    ensures (q * page) % page == 0
  {
    var r, d := (q * page) % page, (q * page) / page;
    assert q * page == d * page + r;
    assert r == (q - d) * page;
    if q - d >= 1 { MulLe(1, q - d, page); assert false; }
    assert (d - q) * page == -r;
    if q - d <= -1 { MulLe(1, d - q, page); assert false; }
    assert r == 0 * page;
  }

  lemma MulLe(x: nat, y: nat, m: nat)
    requires x <= y
    ensures x * m <= y * m
  {
  }

  /** The aligned size is the only multiple of the page size within a page above x. */
  lemma AlignedIsLeast(x: nat, page: nat)
    requires page > 0
    ensures x <= AlignUp(x, page) < x + page && AlignUp(x, page) % page == 0
    ensures forall y: nat :: x <= y && y % page == 0 ==> AlignUp(x, page) <= y
  {
    var q := x / page;
    assert x == q * page + x % page;
    if x % page != 0 {
      assert AlignUp(x, page) == q * page + page == (q + 1) * page;
      DivisibleOnce(q + 1, page);
    }
    forall y: nat | x <= y && y % page == 0 ensures AlignUp(x, page) <= y {
      var d := y / page;
      assert y == d * page;
      if d < q { MulLe(d, q, page); }
      if d == q { assert d * page == q * page; }
      if d > q { MulLe(q + 1, d, page); assert (q + 1) * page == q * page + page; }
    }
  }

  // ---------------------------------------------------------------- the specification

  function HeadroomFromRatio(size: nat, ratio: nat): Outcome<nat> {
    var h := size * ratio / 100;
    if h < W then Ok(h) else Panic
  }

  function NeedsResize(e: Env, size: nat, headroom: Option<nat>): Outcome<bool> {
    var used := e.Occupied();
    if used >= W then Panic
    else if headroom.Some? && headroom.value + used >= W then Panic
    else if headroom.Some? && size < headroom.value + used then Ok(true)
    else Ok(e.trigger(used, size))
  }

  /** The size a step settles on before it asks for disk space. */
  function NextSize(e: Env, size: nat, increase: Option<nat>): Outcome<nat>
    requires e.Valid()
  {
    var wanted := if increase.Some? then Ok(increase.value) else HeadroomFromRatio(size, e.settings.ratio);
    if !wanted.Ok? || e.Occupied() >= W then Panic else
    var sum := size + Clamp(wanted.value, e.settings.minStep, e.settings.maxStep);
    if sum >= W then Panic else
    var aligned := AlignUp(sum, e.page);
    if aligned >= W then Panic else Ok(aligned)
  }

  function DoResize(e: Env, size: nat, increase: Option<nat>, fate: Fate): Outcome<nat>
    requires e.Valid()
  {
    var next := NextSize(e, size, increase);
    if !next.Ok? then next
    else if fate.QueryFails? || fate.bytes <= next.value - size || !fate.mapped then Err
    else next
  }

  /** The bytes up to the end of the last page in use, as mdb_env_set_mapsize computes them. */
  function LeastBytes(e: Env): nat { (e.lastPgno + 1) * e.page % W }

  /** mdb_env_set_mapsize never maps less than the pages in use. */
  function Mapped(e: Env, size: nat): nat { if size < LeastBytes(e) then LeastBytes(e) else size }

  lemma MappedIs(e: Env, size: nat, m: nat)
    requires size <= m && LeastBytes(e) <= m && (m == size || m == LeastBytes(e))
    ensures m == Mapped(e, size)
  {
  }

  /** The map size a step leaves: a failure to map comes after the new size was stored. */
  function SizeAfter(e: Env, size: nat, increase: Option<nat>, fate: Fate): nat
    requires e.Valid()
  {
    var next := NextSize(e, size, increase);
    if next.Ok? && fate.Free? && fate.bytes > next.value - size then Mapped(e, next.value) else size
  }

  /** required_space + initial_map_size: checked in a debug build, wrapping in a release build. */
  function Goal(e: Env, required: nat, initial: nat): Outcome<nat> {
    if required + initial < W then Ok(required + initial)
    else if e.overflowChecks then Panic
    else Ok((required + initial) % W)
  }

  lemma StepMoves(e: Env, size: nat, increase: Option<nat>)
    requires e.Valid()
    ensures var next := NextSize(e, size, increase);
            next.Ok? ==>
              && next.value % e.page == 0
              && size < next.value < W
              && e.settings.minStep <= next.value - size < e.settings.maxStep + e.page
              && (increase.Some? ==>
                    next.value - size >= Clamp(increase.value, e.settings.minStep, e.settings.maxStep))
  {
    var next := NextSize(e, size, increase);
    if next.Ok? {
      var wanted := if increase.Some? then Ok(increase.value) else HeadroomFromRatio(size, e.settings.ratio);
      AlignedIsLeast(size + Clamp(wanted.value, e.settings.minStep, e.settings.maxStep), e.page);
    }
  }

  lemma StepLeaves(e: Env, size: nat, increase: Option<nat>, fate: Fate)
    requires e.Valid()
    ensures var r := DoResize(e, size, increase, fate); r.Ok? ==> SizeAfter(e, size, increase, fate) >= r.value
    ensures SizeAfter(e, size, increase, fate) < W || size >= W
    ensures SizeAfter(e, size, increase, fate) >= size
  {
    StepMoves(e, size, increase);
  }

  /** A step whose size cannot be represented panics; nothing else about the size does. */
  lemma StepPanics(e: Env, size: nat, increase: nat)
    requires e.Valid() && e.Occupied() < W
    ensures NextSize(e, size, Some(increase)).Panic?
       <==> size + Clamp(increase, e.settings.minStep, e.settings.maxStep) > W - e.page
  {
    var sum := size + Clamp(increase, e.settings.minStep, e.settings.maxStep);
    AlignedIsLeast(sum, e.page);
    var top := W / e.page;
    assert W == top * e.page;
    if sum > W - e.page && sum < W {
      var q := AlignUp(sum, e.page) / e.page;
      assert AlignUp(sum, e.page) == q * e.page;
      assert (top - 1) * e.page == W - e.page;
      if q < top { MulLe(q, top - 1, e.page); }
      if q >= top { MulLe(top, q, e.page); }
    }
    if sum <= W - e.page {
      assert (top - 1) * e.page == W - e.page;
      DivisibleOnce(top - 1, e.page);
    }
  }

  /** The loop of resize_db_if_necessary from its k-th test on. */
  function Loop(e: Env, headroom: Option<nat>, required: nat, initial: nat, size: nat, k: nat,
                fates: nat -> Fate): Trace
    requires e.Valid() && size < W
    decreases W - size
  {
    var need := NeedsResize(e, size, headroom);
    if !need.Ok? then Trace(Panic, size, k)
    else if !need.value then Trace(Ok(()), size, k)
    else
      var step := DoResize(e, size, Some(required), fates(k));
      var size' := SizeAfter(e, size, Some(required), fates(k));
      if !step.Ok? then Trace(if step.Err? then Err else Panic, size', k + 1)
      else if !Goal(e, required, initial).Ok? then Trace(Panic, size', k + 1)
      else if step.value >= Goal(e, required, initial).value then Trace(Ok(()), size', k + 1)
      else
        StepMoves(e, size, Some(required));
        Loop(e, headroom, required, initial, size', k + 1, fates)
  }

  function Required(e: Env, initial: nat, headroom: Option<nat>): Outcome<nat> {
    if headroom.Some? then Ok(headroom.value) else HeadroomFromRatio(initial, e.settings.ratio)
  }

  function Resize(e: Env, initial: nat, headroom: Option<nat>, fates: nat -> Fate): Trace
    requires e.Valid() && initial < W
  {
    var required := Required(e, initial, headroom);
    if !required.Ok? then Trace(Panic, initial, 0)
    else Loop(e, headroom, required.value, initial, initial, 0, fates)
  }

  // ---------------------------------------------------------------- properties

  function CeilDiv(x: nat, y: nat): nat
    requires y > 0
  {
    (x + y - 1) / y
  }

  function StepBound(e: Env, required: nat): nat
    requires e.Valid()
  {
    var c := CeilDiv(required, e.settings.maxStep);
    if c < 1 then 1 else c
  }

  lemma BelowCeil(k: nat, x: nat, y: nat)
    requires y > 0 && k * y < x
    ensures k + 1 <= CeilDiv(x, y)
  {
    var c := CeilDiv(x, y);
    assert x + y - 1 == c * y + (x + y - 1) % y;
    if c <= k { MulLe(c, k, y); }
  }

  /** Short of the goal after k steps, the bound leaves room for one more. */
  lemma RoomForAStep(e: Env, required: nat, k: nat)
    requires e.Valid()
    requires k > 0 ==> k * Clamp(required, e.settings.minStep, e.settings.maxStep) < required
    ensures k + 1 <= StepBound(e, required)
  {
    if k > 0 {
      var inc := Clamp(required, e.settings.minStep, e.settings.maxStep);
      MulLe(1, k, inc);
      assert inc == e.settings.maxStep;
      BelowCeil(k, required, e.settings.maxStep);
    }
  }

  /** What holds when the loop reaches its k-th test. */
  ghost predicate Midway(e: Env, required: nat, initial: nat, size: nat, k: nat)
    requires e.Valid()
  {
    && initial <= size < W
    && (k > 0 ==> required + initial < W && k * Clamp(required, e.settings.minStep, e.settings.maxStep) < required)
    && size >= initial + k * Clamp(required, e.settings.minStep, e.settings.maxStep)
  }

  lemma GoalIs(e: Env, required: nat, initial: nat)
    ensures Goal(e, required, initial) ==
      if required + initial >= W && e.overflowChecks then Panic else Ok((required + initial) % W)
  {
  }

  /** A goal that wrapped lies below the initial size. */
  lemma WrappedGoalIsMet(e: Env, required: nat, initial: nat)
    requires required < W && initial < W
    ensures var goal := Goal(e, required, initial);
            goal.Ok? && goal.value >= initial ==> required + initial < W
  {
    var sum := required + initial;
    assert sum >= W ==> sum % W == sum - W;
  }

  lemma MidwayNext(e: Env, required: nat, initial: nat, size: nat, k: nat, fate: Fate)
    requires e.Valid() && Midway(e, required, initial, size, k) && required < W
    requires var step := DoResize(e, size, Some(required), fate);
             step.Ok? && Goal(e, required, initial).Ok? && step.value < Goal(e, required, initial).value
    ensures Midway(e, required, initial, SizeAfter(e, size, Some(required), fate), k + 1)
  {
    StepMoves(e, size, Some(required));
    var inc := Clamp(required, e.settings.minStep, e.settings.maxStep);
    assert (k + 1) * inc == k * inc + inc;
    WrappedGoalIsMet(e, required, initial);
  }

  // ---------------------------------------------------------------- what is asked for

  /** A step without a request grows the map by its share of the size, in per
      cent and rounded up to a page, within the smallest and largest step. */
  lemma RatioStep(e: Env, size: nat)
    requires e.Valid() && NextSize(e, size, None).Ok?
    ensures var g, share := NextSize(e, size, None).value - size, size * e.settings.ratio;
            && (share < 100 * e.settings.minStep ==> e.settings.minStep <= g < e.settings.minStep + e.page)
            && (share >= 100 * e.settings.maxStep ==> e.settings.maxStep <= g < e.settings.maxStep + e.page)
            && (100 * e.settings.minStep <= share < 100 * e.settings.maxStep ==>
                  share - 100 < 100 * g < share + 100 * e.page)
  {
    hide AlignUp;
    var h := size * e.settings.ratio / 100;
    AlignedIsLeast(size + Clamp(h, e.settings.minStep, e.settings.maxStep), e.page);
    Hundredths(size * e.settings.ratio);
  }

  /** A step on request grows the map by what was asked for, rounded up to a page,
      within the smallest and largest step. */
  lemma RequestStep(e: Env, size: nat, increase: nat)
    requires e.Valid() && NextSize(e, size, Some(increase)).Ok?
    ensures var g := NextSize(e, size, Some(increase)).value - size;
            && (increase < e.settings.minStep ==> e.settings.minStep <= g < e.settings.minStep + e.page)
            && (increase > e.settings.maxStep ==> e.settings.maxStep <= g < e.settings.maxStep + e.page)
            && (e.settings.minStep <= increase <= e.settings.maxStep ==> increase <= g < increase + e.page)
  {
    hide AlignUp;
    AlignedIsLeast(size + Clamp(increase, e.settings.minStep, e.settings.maxStep), e.page);
  }

  /** Growth past what the disk has free is refused, and leaves the map alone. */
  lemma DiskSuffices(e: Env, size: nat, increase: Option<nat>, fate: Fate)
    requires e.Valid() && NextSize(e, size, increase).Ok?
    ensures var g := NextSize(e, size, increase).value - size;
            && (DoResize(e, size, increase, fate).Ok? ==> fate.Free? && g < fate.bytes)
            && (fate.QueryFails? || fate.bytes <= g ==>
                  DoResize(e, size, increase, fate).Err? && SizeAfter(e, size, increase, fate) == size)
            && (fate.Free? && g < fate.bytes && fate.mapped ==> DoResize(e, size, increase, fate) == Ok(size + g))
  {
  }

  lemma Hundredths(x: nat)
    ensures 100 * (x / 100) <= x < 100 * (x / 100) + 100
  {
  }

  /** The call leaves the map alone if and only if the headroom is there, when one
      is asked for, and the used part is below the trigger. */
  lemma NothingToDo(e: Env, initial: nat, headroom: Option<nat>, fates: nat -> Fate)
    requires e.Valid() && initial < W
    ensures var t, used := Resize(e, initial, headroom, fates), e.Occupied();
            t.outcome.Ok? && t.steps == 0 <==>
              && used < W && !e.trigger(used, initial)
              && if headroom.Some? then headroom.value + used <= initial
                 else initial * e.settings.ratio < 100 * W
  {
    hide DoResize, SizeAfter, Goal;
    Hundredths(initial * e.settings.ratio);
    var required := Required(e, initial, headroom);
    if required.Ok? {
      StepsCounted(e, headroom, required.value, initial, initial, 0, fates);
    }
  }

  /** A test that asks for a step is followed by one. */
  lemma {:induction false} StepsCounted(e: Env, headroom: Option<nat>, required: nat, initial: nat, size: nat, k: nat,
                                        fates: nat -> Fate)
    requires e.Valid() && size < W
    ensures var t := Loop(e, headroom, required, initial, size, k, fates);
            t.steps >= k && (t.steps == k && t.outcome.Ok? <==> NeedsResize(e, size, headroom) == Ok(false))
    decreases W - size
  {
    hide NeedsResize, Goal;
    var need := NeedsResize(e, size, headroom);
    if need.Ok? && need.value {
      var step := DoResize(e, size, Some(required), fates(k));
      if step.Ok? && Goal(e, required, initial).Ok? && step.value < Goal(e, required, initial).value {
        StepMoves(e, size, Some(required));
        StepLeaves(e, size, Some(required), fates(k));
        StepsCounted(e, headroom, required, initial, SizeAfter(e, size, Some(required), fates(k)), k + 1, fates);
      }
    }
  }

  /** However the disk answers, the loop stops within the bound and never shrinks the map. */
  lemma {:induction false} LoopIsBounded(e: Env, headroom: Option<nat>, required: nat, initial: nat, size: nat, k: nat,
                                         fates: nat -> Fate)
    requires e.Valid() && Midway(e, required, initial, size, k) && required < W
    ensures var t := Loop(e, headroom, required, initial, size, k, fates);
            k <= t.steps <= StepBound(e, required) || t.steps == k
    ensures size <= Loop(e, headroom, required, initial, size, k, fates).size < W
    decreases W - size
  {
    StepMoves(e, size, Some(required));
    RoomForAStep(e, required, k);
    var need := NeedsResize(e, size, headroom);
    if need.Ok? && need.value {
      var step := DoResize(e, size, Some(required), fates(k));
      var goal := Goal(e, required, initial);
      if step.Ok? && goal.Ok? && step.value < goal.value {
        MidwayNext(e, required, initial, size, k, fates(k));
        var size' := SizeAfter(e, size, Some(required), fates(k));
        if k + 1 <= StepBound(e, required) {
          LoopIsBounded(e, headroom, required, initial, size', k + 1, fates);
        }
      }
    }
  }

  /** On success either nothing more is needed or the goal was met by the last step. */
  lemma {:induction false} LoopSucceeds(e: Env, headroom: Option<nat>, required: nat, initial: nat, size: nat, k: nat,
                                        fates: nat -> Fate)
    requires e.Valid() && Midway(e, required, initial, size, k) && required < W
    ensures var t := Loop(e, headroom, required, initial, size, k, fates);
            t.outcome.Ok? && required + initial < W ==>
              t.size >= required + initial || NeedsResize(e, t.size, headroom) == Ok(false)
    decreases W - size
  {
    StepMoves(e, size, Some(required));
    var need := NeedsResize(e, size, headroom);
    if need.Ok? && need.value {
      var step := DoResize(e, size, Some(required), fates(k));
      var goal := Goal(e, required, initial);
      if step.Ok? && goal.Ok? && step.value < goal.value {
        MidwayNext(e, required, initial, size, k, fates(k));
        LoopSucceeds(e, headroom, required, initial, SizeAfter(e, size, Some(required), fates(k)), k + 1, fates);
      }
    }
  }

  /** What success means where the sum does not wrap: the used part is below the
      trigger, and the headroom there if one was asked for; or the map has grown by
      the headroom, or by its share of the size in per cent. */
  lemma SuccessMeans(e: Env, initial: nat, headroom: Option<nat>, fates: nat -> Fate)
    requires e.Valid() && initial < W && (headroom.Some? ==> headroom.value + initial < W)
    requires headroom.None? ==> initial * e.settings.ratio + 100 * initial < 100 * W
    requires Resize(e, initial, headroom, fates).outcome.Ok?
    ensures var size, used := Resize(e, initial, headroom, fates).size, e.Occupied();
            && size >= initial
            && ((!e.trigger(used, size) && (headroom.Some? ==> size >= headroom.value + used)) ||
                if headroom.Some? then size >= initial + headroom.value
                else 100 * (size - initial + 1) > initial * e.settings.ratio)
  {
    hide Loop, StepBound, CeilDiv;
    Hundredths(initial * e.settings.ratio);
    ResizeIsBounded(e, initial, headroom, fates);
    LoopSucceeds(e, headroom, Required(e, initial, headroom).value, initial, initial, 0, fates);
  }

  /** The whole call takes at most max(1, ceil(required / max_step)) steps and never shrinks the map. */
  lemma ResizeIsBounded(e: Env, initial: nat, headroom: Option<nat>, fates: nat -> Fate)
    requires e.Valid() && initial < W && (headroom.Some? ==> headroom.value < W)
    ensures var t := Resize(e, initial, headroom, fates);
            && initial <= t.size < W
            && (Required(e, initial, headroom).Ok? ==>
                  t.steps <= StepBound(e, Required(e, initial, headroom).value))
  {
    var required := Required(e, initial, headroom);
    if required.Ok? {
      LoopIsBounded(e, headroom, required.value, initial, initial, 0, fates);
    }
  }

  // ---------------------------------------------------------------- is the headroom there?

  /** The size of the first step, before mdb_env_set_mapsize has its say. */
  function FirstStep(e: Env, initial: nat, h: nat): nat
    requires e.Valid()
  {
    AlignUp(initial + Clamp(h, e.settings.minStep, e.settings.maxStep), e.page)
  }

  /** How many increases lead from a size to a goal; one is always made. */
  function StepsTo(from: nat, goal: nat, inc: nat): (k: nat)
    requires inc > 0
  {
    if goal <= from + inc then 1 else CeilDiv(goal - from, inc)
  }

  /** The largest size the call can come to, from what is known before it. */
  function Reach(e: Env, initial: nat, h: nat, goal: nat): nat
    requires e.Valid()
  {
    var base := Mapped(e, FirstStep(e, initial, h));
    if FirstStep(e, initial, h) >= goal then base
    else
      AlignedIsLeast(e.settings.maxStep, e.page);
      var inc := AlignUp(e.settings.maxStep, e.page);
      base + StepsTo(base, goal, inc) * inc
  }

  /** What has to hold before the call for its success to mean that the headroom is there. */
  predicate Enough(e: Env, initial: nat, h: nat)
    requires e.Valid()
  {
    || initial >= h + e.Occupied()
    || (Goal(e, h, initial).Ok? && Reach(e, initial, h, Goal(e, h, initial).value) >= h + e.Occupied())
  }

  lemma StepsAreLeast(from: nat, goal: nat, inc: nat)
    requires inc > 0
    ensures var k := StepsTo(from, goal, inc);
            && k >= 1
            && from + k * inc >= goal
            && forall j: nat :: 1 <= j && from + j * inc >= goal ==> k <= j
  {
    if goal > from + inc {
      var gap := goal - from;
      var k := CeilDiv(gap, inc);
      assert gap + inc - 1 == k * inc + (gap + inc - 1) % inc;
      assert k * inc >= gap;
      assert k >= 1;
      assert (k - 1) * inc == k * inc - inc;
      forall j: nat | 1 <= j && from + j * inc >= goal ensures k <= j {
        if k > j { MulLe(j, k - 1, inc); }
      }
    }
  }

  /** The pages in use end inside the range of a word. */
  lemma LeastIsAligned(e: Env)
    requires e.Valid() && e.Occupied() < W
    ensures LeastBytes(e) % e.page == 0
    ensures LeastBytes(e) == e.Occupied() + e.page || (LeastBytes(e) == 0 && e.Occupied() + e.page == W)
  {
    var top := W / e.page;
    assert W == top * e.page;
    if e.lastPgno >= top { MulLe(top, e.lastPgno, e.page); assert false; }
    MulLe(e.lastPgno + 1, top, e.page);
    var bytes := (e.lastPgno + 1) * e.page;
    assert bytes == e.Occupied() + e.page;
    DivisibleOnce(e.lastPgno + 1, e.page);
    if bytes < W { Small(bytes); }
  }

  /** From an aligned size each step adds the same amount. */
  lemma AlignedStep(size: nat, c: nat, page: nat)
    requires page > 0 && size % page == 0
    ensures AlignUp(size + c, page) == size + AlignUp(c, page)
  {
    var q := size / page;
    assert size == q * page;
    var d, r := c / page, c % page;
    assert size + c == (q + d) * page + r by { assert (q + d) * page == q * page + d * page; }
    RemainderIs(size + c, q + d, r, page);
  }

  lemma RemainderIs(x: nat, q: nat, r: nat, page: nat)
    requires page > 0 && x == q * page + r && r < page
    ensures x % page == r
  {
    var d := x / page;
    assert x == d * page + x % page;
    assert (d + 1) * page == d * page + page && (q + 1) * page == q * page + page;
    if d < q { MulLe(d + 1, q, page); }
    if d > q { MulLe(q + 1, d, page); }
    if d == q { assert d * page == q * page; }
  }

  /** Short of the goal after the first step, every step has the largest size and the goal did not wrap. */
  lemma ShortOfGoal(e: Env, initial: nat, h: nat)
    requires e.Valid() && initial < W && h < W
    requires Goal(e, h, initial).Ok? && FirstStep(e, initial, h) < Goal(e, h, initial).value
    ensures Clamp(h, e.settings.minStep, e.settings.maxStep) == e.settings.maxStep
    ensures Goal(e, h, initial).value == h + initial < W
  {
    AlignedIsLeast(initial + Clamp(h, e.settings.minStep, e.settings.maxStep), e.page);
    WrappedGoalIsMet(e, h, initial);
  }

  /** Later steps add the aligned largest step to an aligned size that covers the pages in use. */
  lemma LaterStep(e: Env, size: nat, h: nat, fate: Fate)
    requires e.Valid() && e.Occupied() < W
    requires size % e.page == 0 && size >= LeastBytes(e)
    requires Clamp(h, e.settings.minStep, e.settings.maxStep) == e.settings.maxStep
    ensures var inc := AlignUp(e.settings.maxStep, e.page);
            DoResize(e, size, Some(h), fate).Ok? ==>
              && DoResize(e, size, Some(h), fate).value == size + inc
              && SizeAfter(e, size, Some(h), fate) == size + inc
              && (size + inc) % e.page == 0
  {
    AlignedStep(size, e.settings.maxStep, e.page);
    AlignedIsLeast(size + e.settings.maxStep, e.page);
  }

  /** The loop after the first step: it stops at the goal, or earlier where the headroom is there. */
  lemma {:induction false} LoopReaches(e: Env, h: nat, initial: nat, base: nat, j: nat, k: nat, fates: nat -> Fate)
    requires e.Valid() && e.Occupied() < W && initial < W && h < W
    requires Clamp(h, e.settings.minStep, e.settings.maxStep) == e.settings.maxStep
    requires base % e.page == 0 && base >= LeastBytes(e)
    requires var inc := AlignUp(e.settings.maxStep, e.page);
             && inc > 0 && base + j * inc < W && (base + j * inc) % e.page == 0
             && Goal(e, h, initial).Ok?
             && j < StepsTo(base, Goal(e, h, initial).value, inc)
    ensures var inc := AlignUp(e.settings.maxStep, e.page);
            var end := base + StepsTo(base, Goal(e, h, initial).value, inc) * inc;
            var t := Loop(e, Some(h), h, initial, base + j * inc, k, fates);
            t.outcome.Ok? ==> t.size == end || h + e.Occupied() <= t.size <= end
    decreases StepsTo(base, Goal(e, h, initial).value, AlignUp(e.settings.maxStep, e.page)) - j
  {
    hide AlignUp, Clamp, DoResize, SizeAfter, StepsTo, LeastBytes, Goal, Mapped, NextSize;
    var inc := AlignUp(e.settings.maxStep, e.page);
    var goal := Goal(e, h, initial).value;
    var last := StepsTo(base, goal, inc);
    var size := base + j * inc;
    StepsAreLeast(base, goal, inc);
    MulLe(j, last, inc);
    assert (j + 1) * inc == j * inc + inc;
    LaterStep(e, size, h, fates(k));
    StepLeaves(e, size, Some(h), fates(k));
    var need := NeedsResize(e, size, Some(h));
    if need == Ok(true) && DoResize(e, size, Some(h), fates(k)).Ok? {
      assert size + inc == base + (j + 1) * inc;
      if size + inc < goal {
        assert last != j + 1;
        LoopReaches(e, h, initial, base, j + 1, k + 1, fates);
      } else {
        assert last == j + 1;
      }
    }
  }

  /**
   Whether the headroom asked for is there when the call succeeds: exactly
   under a condition on what is known before the call.
   */
  lemma HeadroomIsMet(e: Env, initial: nat, h: nat, fates: nat -> Fate)
    requires e.Valid() && initial < W && h < W
    requires Resize(e, initial, Some(h), fates).outcome.Ok?
    ensures Resize(e, initial, Some(h), fates).size >= h + e.Occupied() <==> Enough(e, initial, h)
  {
    ResizeIsBounded(e, initial, Some(h), fates);
    if initial < h + e.Occupied() { GrownTo(e, initial, h, fates); }
  }

  /** A call that has to grow the map ends at its reach, or before it with the headroom there. */
  lemma GrownTo(e: Env, initial: nat, h: nat, fates: nat -> Fate)
    requires e.Valid() && initial < W && h < W && initial < h + e.Occupied()
    requires Resize(e, initial, Some(h), fates).outcome.Ok?
    ensures Goal(e, h, initial).Ok?
    ensures var t := Resize(e, initial, Some(h), fates);
            var end := Reach(e, initial, h, Goal(e, h, initial).value);
            t.size == end || h + e.Occupied() <= t.size <= end
  {
    hide AlignUp, Clamp, StepsTo, LeastBytes;
    var first := FirstStep(e, initial, h);
    var base := Mapped(e, first);
    StepMoves(e, initial, Some(h));
    StepLeaves(e, initial, Some(h), fates(0));
    LeastIsAligned(e);
    AlignedIsLeast(e.settings.maxStep, e.page);
    var goal := Goal(e, h, initial).value;
    if first < goal {
      ShortOfGoal(e, initial, h);
      var inc := AlignUp(e.settings.maxStep, e.page);
      StepsAreLeast(base, goal, inc);
      assert base + 0 * inc == base;
      LoopReaches(e, h, initial, base, 0, 1, fates);
    }
  }

  /** With the pages in use inside the old map, only a goal that wraps around can leave too little. */
  lemma InsideTheMap(e: Env, initial: nat, h: nat)
    requires e.Valid() && initial < W && h < W && e.Occupied() <= initial
    ensures Enough(e, initial, h)
       <==> (h + initial < W
             || initial >= h + e.Occupied()
             || (!e.overflowChecks && FirstStep(e, initial, h) >= h + e.Occupied()))
  {
    hide AlignUp, Clamp, LeastBytes, StepsTo, Mapped;
    var first := FirstStep(e, initial, h);
    AlignedIsLeast(initial + Clamp(h, e.settings.minStep, e.settings.maxStep), e.page);
    StepIsPositive(e, h);
    LeastFits(e, first);
    if h + initial < W {
      if first < h + initial {
        AlignedIsLeast(e.settings.maxStep, e.page);
        StepsAreLeast(first, h + initial, AlignUp(e.settings.maxStep, e.page));
      }
    } else {
      assert (h + initial) % W == h + initial - W < initial;
    }
  }

  lemma StepIsPositive(e: Env, h: nat)
    requires e.Valid()
    ensures Clamp(h, e.settings.minStep, e.settings.maxStep) > 0
  {
  }

  lemma Small(x: nat)
    requires x < W
    ensures x % W == x
  {
  }

  /** An aligned size above the pages in use is mapped as asked for. */
  lemma LeastFits(e: Env, size: nat)
    requires e.Valid() && e.Occupied() < size && size % e.page == 0
    ensures Mapped(e, size) == size
  {
    var q := size / e.page;
    assert size == q * e.page;
    if q <= e.lastPgno { MulLe(q, e.lastPgno, e.page); }
    MulLe(e.lastPgno + 1, q, e.page);
    var bytes := (e.lastPgno + 1) * e.page;
    assert bytes <= size;
    WordIsLess(bytes);
  }

  lemma WordIsLess(x: nat)
    ensures x % W <= x
  {
  }

  /** A word wraps: success, and far less room than asked for. */
  lemma WrappedGoalFallsShort()
    ensures var s := Settings(0x1000_0000, 0x8000_0000, 100);
            var e := Env(s, 4096, 1, (used, size) => used > size, false);
            var h := W - 0x1000_0000;
            && e.Valid() && s.Valid()
            && e.Occupied() <= 0x1000_0000
            && var t := Resize(e, 0x1000_0000, Some(h), k => Free(W - 1, true));
               t.outcome.Ok? && t.size == 0x9000_0000 < h + e.Occupied()
  {
    var s := Settings(0x1000_0000, 0x8000_0000, 100);
    var e := Env(s, 4096, 1, (used, size) => used > size, false);
    var h := W - 0x1000_0000;
    assert NextSize(e, 0x1000_0000, Some(h)) == Ok(0x9000_0000);
    assert Goal(e, h, 0x1000_0000) == Ok(0);
  }

  /** Another process filled the file beyond this map: success, and less room than asked for. */
  lemma OutgrownMapFallsShort()
    ensures var s := Settings(4096, 0x8000_0000, 100);
            var e := Env(s, 4096, 100, (used, size) => used > size, true);
            && e.Valid()
            && e.Occupied() > 2 * 4096
            && var t := Resize(e, 2 * 4096, Some(4 * 4096), k => Free(W - 1, true));
               t.outcome.Ok? && t.size == 101 * 4096 < 4 * 4096 + e.Occupied()
  {
    var s := Settings(4096, 0x8000_0000, 100);
    var e := Env(s, 4096, 100, (used, size) => used > size, true);
    assert NextSize(e, 2 * 4096, Some(4 * 4096)) == Ok(6 * 4096);
    assert Goal(e, 4 * 4096, 2 * 4096) == Ok(6 * 4096);
  }

  /** What the caller is promised, and how the loop begins. */
  lemma ResizeKeeps(e: Env, initial: nat, headroom: Option<nat>, fates: nat -> Fate)
    requires e.Valid() && initial < W && (headroom.Some? ==> headroom.value < W)
    ensures var t := Resize(e, initial, headroom, fates);
            && initial <= t.size < W
            && (headroom.Some? ==> t.steps <= StepBound(e, headroom.value))
            && (t.outcome.Ok? && headroom.Some? ==>
                  (t.size >= headroom.value + e.Occupied() <==> Enough(e, initial, headroom.value)))
            && (t.outcome.Ok? && headroom.Some? && e.Occupied() <= initial && headroom.value + initial < W ==>
                  t.size >= headroom.value + e.Occupied())
    ensures var required := Required(e, initial, headroom);
            Resize(e, initial, headroom, fates) ==
              if required.Ok? then Loop(e, headroom, required.value, initial, initial, 0, fates)
              else Trace(Panic, initial, 0)
  {
    hide Loop, StepBound, AlignUp, Clamp, Enough;
    ResizeIsBounded(e, initial, headroom, fates);
    if headroom.Some? && Resize(e, initial, headroom, fates).outcome.Ok? {
      HeadroomIsMet(e, initial, headroom.value, fates);
      if e.Occupied() <= initial { InsideTheMap(e, initial, headroom.value); }
    }
  }

  // ---------------------------------------------------------------- the environment

  class Environment {
    const settings: Settings
    const page: nat
    const trigger: (nat, nat) -> bool
    const overflowChecks: bool
    var lastPgno: nat
    var mapSize: nat

    /** The map size in the newest meta record, which another process may have written. */
    var recorded: Word

    constructor (settings: Settings, page: nat, trigger: (nat, nat) -> bool, overflowChecks: bool, lastPgno: nat,
                 mapSize: nat, recorded: Word)
      requires Env(settings, page, lastPgno, trigger, overflowChecks).Valid() && mapSize < W
      ensures Valid() && View() == Env(settings, page, lastPgno, trigger, overflowChecks) && this.mapSize == mapSize
    {
      this.settings, this.page, this.trigger, this.overflowChecks := settings, page, trigger, overflowChecks;
      this.lastPgno, this.mapSize, this.recorded := lastPgno, mapSize, recorded;
    }

    function View(): Env
      reads this
    {
      Env(settings, page, lastPgno, trigger, overflowChecks)
    }

    predicate Valid()
      reads this
    {
      View().Valid() && mapSize < W
    }

    /** mdb_env_set_mapsize on an open environment without a write transaction;
        size 0 asks for the size that the newest meta record has. */
    method SetMapSize(size: nat, mapped: bool) returns (ok: bool)
      requires Valid() && size < W
      modifies this`mapSize
      ensures Valid() && ok == mapped
      ensures var asked := if size == 0 then recorded else size;
              && asked <= mapSize && LeastBytes(View()) <= mapSize
              && (mapSize == asked || mapSize == LeastBytes(View()))
              && (mapSize == asked <==> LeastBytes(View()) <= asked)
    {
      var asked := if size == 0 then recorded else size;
      var least := (lastPgno + 1) * page % W;
      mapSize := if asked < least then least else asked;
      ok := mapped;
    }

    /** do_resize_locked: grows by a bounded, page-aligned step or leaves the map alone. */
    method DoResizeLocked(increase: Option<nat>, fate: Fate) returns (r: Outcome<nat>)
      requires Valid()
      modifies this`mapSize
      ensures Valid()
      ensures r == DoResize(View(), old(mapSize), increase, fate)
      ensures mapSize == SizeAfter(View(), old(mapSize), increase, fate)
      ensures r.Ok? ==>
                && mapSize >= r.value && r.value % page == 0
                && settings.minStep <= r.value - old(mapSize) < settings.maxStep + page
    {
      hide Mapped, LeastBytes, HeadroomFromRatio;
      StepMoves(View(), mapSize, increase);
      StepLeaves(View(), mapSize, increase, fate);
      var wanted := if increase.Some? then Ok(increase.value) else HeadroomFromRatio(mapSize, settings.ratio);
      if !wanted.Ok? { return Panic; }
      var step := if wanted.value < settings.minStep then settings.minStep
                  else if wanted.value > settings.maxStep then settings.maxStep
                  else wanted.value;
      if page * lastPgno >= W { return Panic; }
      var size := mapSize + step;
      if size >= W { return Panic; }
      AlignedIsLeast(size, page);
      if size % page != 0 {
        size := size + (page - size % page);
        if size >= W {
          // Wrapping yields zero, which the assertion on growth refuses; a checked addition panics here.
          return Panic;
        }
      }
      assert NextSize(View(), mapSize, increase) == Ok(size);
      // The branch on an unchanged size is never taken: the smallest step is positive.
      if size == mapSize { size := size + page; }
      if size % page != 0 || size <= mapSize { return Panic; }
      if fate.QueryFails? { return Err; }
      if fate.bytes <= size - mapSize { return Err; }
      var ok := SetMapSize(size, fate.mapped);
      MappedIs(View(), size, mapSize);
      r := if ok then Ok(size) else Err;
    }

    /** resize_db_if_necessary: the loop meets its specification, its bound and, on success, its goal. */
    method ResizeIfNecessary(headroom: Option<nat>, fates: nat -> Fate) returns (r: Outcome<()>, steps: nat)
      requires Valid() && (headroom.Some? ==> headroom.value < W)
      modifies this`mapSize
      ensures Valid() && mapSize >= old(mapSize)
      ensures Trace(r, mapSize, steps) == Resize(View(), old(mapSize), headroom, fates)
      ensures headroom.Some? ==> steps <= StepBound(View(), headroom.value)
      ensures r.Ok? && headroom.Some? ==>
                (mapSize >= headroom.value + View().Occupied() <==> Enough(View(), old(mapSize), headroom.value))
      ensures r.Ok? && headroom.Some? && View().Occupied() <= old(mapSize) && headroom.value + old(mapSize) < W ==>
                mapSize >= headroom.value + View().Occupied()
    {
      hide NextSize, DoResize, SizeAfter, Mapped, AlignUp, CeilDiv, StepBound, NeedsResize, Goal, Clamp, Resize, Enough;
      var initial := mapSize;
      ResizeKeeps(View(), initial, headroom, fates);
      steps := 0;
      var required := if headroom.Some? then Ok(headroom.value) else HeadroomFromRatio(initial, settings.ratio);
      if !required.Ok? { return Panic, steps; }
      while true
        invariant Valid()
        invariant Resize(View(), initial, headroom, fates)
               == Loop(View(), headroom, required.value, initial, mapSize, steps, fates)
        decreases W - mapSize
      {
        ghost var size := mapSize;
        StepMoves(View(), size, Some(required.value));
        var need := NeedsResize(View(), mapSize, headroom);
        if !need.Ok? { return Panic, steps; }
        if !need.value { return Ok(()), steps; }
        var step := DoResizeLocked(Some(required.value), fates(steps));
        steps := steps + 1;
        if !step.Ok? { return if step.Err? then Err else Panic, steps; }
        GoalIs(View(), required.value, initial);
        if required.value + initial >= W && overflowChecks { return Panic, steps; }
        var goal := (required.value + initial) % W;
        if step.value >= goal { return Ok(()), steps; }
      }
    }
  }
}
