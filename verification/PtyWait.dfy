/**
 The wait protocol of a PTY session: a feeder and a resizer change the grid and
 bump a generation, and a waiter marks, checks and parks. Any interleaving of
 their steps is a run.
 */
module PtyWait {
  import opened Basics

  type Chunk = seq<int>

  datatype Write = Fed(chunk: Chunk) | Resized(cols: nat, rows: nat)

  /** The screen is determined by the writes applied to it, in order. */
  type Grid = seq<Write>

  /** The feeder bumps only after it has released the terminal. */
  datatype Feeder = Receiving | Pushed(chunk: Chunk) | Unbumped | Exited

  /** The resizer keeps the terminal locked from the resize to its bump. */
  datatype Resizer = Idle | Changed | Upgraded

  datatype Answer = Matched | Ended | TimedOut

  datatype Waiter = LoopHead | Marked | Parked | Answered(answer: Answer)

  datatype State = State(
    grid: Grid,
    generation: nat,
    received: seq<Chunk>,
    feeder: Feeder,
    resizer: Resizer,
    waiter: Waiter,
    seen: nat,
    checked: Grid,
    shown: Option<Grid>,
    now: nat,
    deadline: nat)

  datatype Action =
    | PushTail(chunk: Chunk) | Feed | FeederBump | FeederExit
    | Resize(cols: nat, rows: nat) | Upgrade | UpgradeFails | ResizerBump
    | Mark | Check | Wake | SenderGone | DeadlineFires | Snapshot | Tick

  /** A waiter that starts on a session with any history, its writers anywhere. */
  ghost predicate Initial(s: State) {
    s.waiter.LoopHead? && s.checked == [] && s.shown.None? && Bookkeeping(s)
  }

  predicate LockFree(s: State) {
    s.resizer.Idle?
  }

  /** The feeder owns the only lasting sender; a resizer borrows it while bumping. */
  predicate SenderLives(s: State) {
    !s.feeder.Exited? || s.resizer.Upgraded?
  }

  /** `changed()` yields while a version is unseen, and errs only when seen and closed. */
  predicate Enabled(s: State, a: Action) {
    match a
    case PushTail(_) => s.feeder.Receiving?
    case Feed => s.feeder.Pushed? && LockFree(s)
    case FeederBump => s.feeder.Unbumped?
    case FeederExit => s.feeder.Receiving?
    case Resize(_, _) => LockFree(s)
    case Upgrade => s.resizer.Changed? && SenderLives(s)
    case UpgradeFails => s.resizer.Changed? && !SenderLives(s)
    case ResizerBump => s.resizer.Upgraded?
    case Mark => s.waiter.LoopHead?
    case Check => s.waiter.Marked? && LockFree(s)
    case Wake => s.waiter.Parked? && s.seen < s.generation
    case SenderGone => s.waiter.Parked? && s.seen == s.generation && !SenderLives(s)
    case DeadlineFires => s.waiter.Parked? && s.deadline <= s.now
    case Snapshot => s.waiter.Answered? && !s.waiter.answer.Matched? && s.shown.None? && LockFree(s)
    case Tick => true
  }

  function After(met: Grid -> bool, s: State, a: Action): State {
    match a
    case PushTail(chunk) => s.(feeder := Pushed(chunk), received := s.received + [chunk])
    case Feed => if s.feeder.Pushed? then s.(feeder := Unbumped, grid := s.grid + [Fed(s.feeder.chunk)]) else s
    case FeederBump => s.(feeder := Receiving, generation := s.generation + 1)
    case FeederExit => s.(feeder := Exited)
    case Resize(cols, rows) => s.(resizer := Changed, grid := s.grid + [Resized(cols, rows)])
    case Upgrade => s.(resizer := Upgraded)
    case UpgradeFails => s.(resizer := Idle)
    case ResizerBump => s.(resizer := Idle, generation := s.generation + 1)
    case Mark => s.(waiter := Marked, seen := s.generation)
    case Check => s.(waiter := if met(s.grid) then Answered(Matched) else Parked, checked := s.grid)
    case Wake => s.(waiter := LoopHead, seen := s.generation)
    case SenderGone => s.(waiter := Answered(Ended))
    case DeadlineFires => s.(waiter := Answered(TimedOut))
    case Snapshot => s.(shown := Some(s.grid))
    case Tick => s.(now := s.now + 1)
  }

  /** The chunks a grid has taken in. */
  function Chunks(grid: Grid): seq<Chunk> {
    if grid == [] then []
    else
      var front, last := grid[..|grid| - 1], grid[|grid| - 1];
      Chunks(front) + if last.Fed? then [last.chunk] else []
  }

  lemma {:induction false} ChunksAppend(grid: Grid, w: Write)
    ensures Chunks(grid + [w]) == Chunks(grid) + if w.Fed? then [w.chunk] else []
  {
    assert (grid + [w])[..|grid|] == grid;
  }

  /** A writer has changed the grid and not yet bumped for it. */
  predicate MidWrite(s: State) {
    s.feeder.Unbumped? || !s.resizer.Idle?
  }

  // ----- what every step keeps ----------------------------------------------------

  ghost predicate Bookkeeping(s: State) {
    && s.seen <= s.generation
    && s.checked <= s.grid
    && s.received == Chunks(s.grid) + if s.feeder.Pushed? then [s.feeder.chunk] else []
  }

  /** A parked waiter has seen the grid as it is, or something will wake it. */
  ghost predicate WakesIfStale(s: State) {
    s.waiter.Parked? ==>
      && (SenderLives(s) ==> s.grid == s.checked || s.seen < s.generation || MidWrite(s))
      && (Chunks(s.grid) == Chunks(s.checked) || s.seen < s.generation || s.feeder.Unbumped?)
  }

  ghost predicate AnswersTrue(met: Grid -> bool, s: State) {
    match s.waiter
    case Parked => !met(s.checked)
    case Answered(Matched) => met(s.checked)
    case Answered(Ended) => !met(s.checked) && s.feeder.Exited? && Chunks(s.grid) == Chunks(s.checked)
    case Answered(TimedOut) => !met(s.checked) && s.deadline <= s.now
    case _ => true
  }

  ghost predicate Inv(met: Grid -> bool, s: State) {
    Bookkeeping(s) && WakesIfStale(s) && AnswersTrue(met, s)
  }

  /** How a step changes the chunks on the grid. */
  lemma {:induction false} StepChunks(met: Grid -> bool, s: State, a: Action)
    requires Enabled(s, a)
    ensures Chunks(After(met, s, a).grid) == Chunks(s.grid) + if a.Feed? then [s.feeder.chunk] else []
  {
    if a.Feed? {
      ChunksAppend(s.grid, Fed(s.feeder.chunk));
    } else if a.Resize? {
      ChunksAppend(s.grid, Resized(a.cols, a.rows));
    }
  }

  lemma {:induction false} StepKeepsBooks(met: Grid -> bool, s: State, a: Action)
    requires Bookkeeping(s) && Enabled(s, a)
    ensures Bookkeeping(After(met, s, a))
  {
    StepChunks(met, s, a);
  }

  lemma {:induction false} StepKeepsWakes(met: Grid -> bool, s: State, a: Action)
    requires Bookkeeping(s) && WakesIfStale(s) && Enabled(s, a)
    ensures WakesIfStale(After(met, s, a))
  {
    StepChunks(met, s, a);
  }

  lemma {:induction false} StepKeepsAnswers(met: Grid -> bool, s: State, a: Action)
    requires Inv(met, s) && Enabled(s, a)
    ensures AnswersTrue(met, After(met, s, a))
  {
    StepChunks(met, s, a);
  }

  lemma {:induction false} StepKeepsInv(met: Grid -> bool, s: State, a: Action)
    requires Inv(met, s) && Enabled(s, a)
    ensures Inv(met, After(met, s, a))
  {
    StepKeepsBooks(met, s, a);
    StepKeepsWakes(met, s, a);
    StepKeepsAnswers(met, s, a);
  }

  // ----- runs ------------------------------------------------------------------------

  ghost predicate StepsAt(met: Grid -> bool, run: seq<State>, actions: seq<Action>, i: nat)
    requires |run| == |actions| + 1 && i < |actions|
  {
    Enabled(run[i], actions[i]) && run[i + 1] == After(met, run[i], actions[i])
  }

  ghost predicate IsRun(met: Grid -> bool, run: seq<State>, actions: seq<Action>) {
    && |run| == |actions| + 1 && Initial(run[0])
    && forall i :: 0 <= i < |actions| ==> StepsAt(met, run, actions, i)
  }

  lemma {:induction false} RunKeepsInv(met: Grid -> bool, run: seq<State>, actions: seq<Action>, i: nat)
    requires IsRun(met, run, actions) && i < |run|
    ensures Inv(met, run[i])
  {
    if i > 0 {
      assert StepsAt(met, run, actions, i - 1);
      RunKeepsInv(met, run, actions, i - 1);
      StepKeepsInv(met, run[i - 1], actions[i - 1]);
    }
  }

  /**
   No lost wakeup: while a sender lives and no writer is between changing the grid
   and bumping, a parked waiter that has seen the generation waits on a grid that
   does not meet its condition.
   */
  lemma NoLostWakeup(met: Grid -> bool, run: seq<State>, actions: seq<Action>, i: nat)
    requires IsRun(met, run, actions) && i < |run|
    requires run[i].waiter.Parked? && SenderLives(run[i]) && !MidWrite(run[i])
    ensures run[i].seen == run[i].generation ==> !met(run[i].grid)
    ensures met(run[i].grid) ==> Enabled(run[i], Wake)
  {
    RunKeepsInv(met, run, actions, i);
  }

  // ----- a wakeup leads to the answer --------------------------------------------------

  predicate WaiterStep(a: Action) {
    a.Mark? || a.Check? || a.Wake? || a.SenderGone? || a.DeadlineFires?
  }

  predicate WritesGrid(a: Action) {
    a.Feed? || a.Resize?
  }

  function WaiterSteps(actions: seq<Action>): nat {
    if actions == [] then 0
    else WaiterSteps(actions[..|actions| - 1]) + if WaiterStep(actions[|actions| - 1]) then 1 else 0
  }

  /** Where a waiter that is about to match stands after so many steps of its own. */
  function OnTheWay(steps: nat): Waiter {
    if steps == 0 then Parked else if steps == 1 then LoopHead else if steps == 2 then Marked else Answered(Matched)
  }

  /** The condition is met, nothing is being written, and the waiter is `steps` steps from where it slept. */
  ghost predicate Matching(met: Grid -> bool, s: State, steps: nat) {
    && met(s.grid) && !MidWrite(s) && s.waiter == OnTheWay(steps)
    && (s.waiter.Parked? ==> s.seen < s.generation)
  }

  lemma {:induction false} StepKeepsMatching(met: Grid -> bool, s: State, a: Action, steps: nat)
    requires Enabled(s, a) && !WritesGrid(a) && Matching(met, s, steps) && s.now < s.deadline
    ensures After(met, s, a).grid == s.grid
    ensures Matching(met, After(met, s, a), if WaiterStep(a) then steps + 1 else steps)
  {
  }

  lemma {:induction false} TimeGoesOn(met: Grid -> bool, s: State, a: Action)
    ensures s.now <= After(met, s, a).now && After(met, s, a).deadline == s.deadline
  {
  }

  /**
   A parked waiter whose condition is met answers so within three steps of its own,
   whatever else goes on, as long as the grid stays and the deadline has not come.
   */
  lemma {:induction false} WakesToMatch(met: Grid -> bool, run: seq<State>, actions: seq<Action>, i: nat, j: nat)
    requires IsRun(met, run, actions) && i <= j < |run|
    requires run[i].waiter.Parked? && SenderLives(run[i]) && !MidWrite(run[i]) && met(run[i].grid)
    requires forall k :: i <= k < j ==> !WritesGrid(actions[k])
    requires run[j].now < run[j].deadline
    ensures run[j].grid == run[i].grid && Matching(met, run[j], WaiterSteps(actions[i..j]))
    decreases j
  {
    if i == j {
      NoLostWakeup(met, run, actions, i);
    } else {
      assert StepsAt(met, run, actions, j - 1);
      TimeGoesOn(met, run[j - 1], actions[j - 1]);
      WakesToMatch(met, run, actions, i, j - 1);
      assert actions[i..j][..j - 1 - i] == actions[i..j - 1];
      StepKeepsMatching(met, run[j - 1], actions[j - 1], WaiterSteps(actions[i..j - 1]));
    }
  }

  /**
   An `ended` answer is final: its last check read a grid holding every chunk the
   feeder ever received and found the condition unmet, and whatever the grid has
   gained since is resizes.
   */
  lemma EndedSawEverything(met: Grid -> bool, run: seq<State>, actions: seq<Action>, i: nat)
    requires IsRun(met, run, actions) && i < |run| && run[i].waiter == Answered(Ended)
    ensures !met(run[i].checked)
    ensures Chunks(run[i].checked) == run[i].received
    ensures run[i].checked <= run[i].grid
    ensures forall k :: |run[i].checked| <= k < |run[i].grid| ==> run[i].grid[k].Resized?
  {
    RunKeepsInv(met, run, actions, i);
    SameChunksMeansResizes(run[i].checked, run[i].grid);
  }

  lemma {:induction false} SameChunksMeansResizes(early: Grid, late: Grid)
    requires early <= late && Chunks(early) == Chunks(late)
    ensures forall k :: |early| <= k < |late| ==> late[k].Resized?
    decreases |late|
  {
    if |early| < |late| {
      var front := late[..|late| - 1];
      ChunksGrow(early, front);
      SameChunksMeansResizes(early, front);
    }
  }

  lemma {:induction false} ChunksGrow(early: Grid, late: Grid)
    requires early <= late
    ensures |Chunks(early)| <= |Chunks(late)|
    ensures |Chunks(early)| == |Chunks(late)| ==> Chunks(early) == Chunks(late)
    decreases |late|
  {
    if |early| < |late| {
      ChunksGrow(early, late[..|late| - 1]);
    } else {
      assert early == late;
    }
  }

  /** A matched answer saw the condition met, a timed-out one never left early. */
  lemma OtherAnswers(met: Grid -> bool, run: seq<State>, actions: seq<Action>, i: nat)
    requires IsRun(met, run, actions) && i < |run|
    ensures run[i].waiter == Answered(Matched) ==> met(run[i].checked) && run[i].checked <= run[i].grid
    ensures run[i].waiter == Answered(TimedOut) ==> !met(run[i].checked) && run[i].deadline <= run[i].now
  {
    RunKeepsInv(met, run, actions, i);
  }

  // ----- when the grid is final --------------------------------------------------------

  /** A resize among the steps from `c` to `i` found no sender to bump with. */
  ghost predicate SilentResize(actions: seq<Action>, c: nat, i: nat)
    requires i <= |actions|
  {
    exists k :: c < k < i && actions[k].UpgradeFails?
  }

  /** The waiter's last check before step `i` is step `c`. */
  ghost predicate LastCheck(actions: seq<Action>, c: nat, i: nat)
    requires i <= |actions|
  {
    c < i && actions[c].Check? && forall k :: c < k < i ==> !actions[k].Check?
  }

  /** What has become of the checked grid, `silent` if a resize since found no sender. */
  ghost predicate Since(s: State, silent: bool) {
    && s.checked <= s.grid && s.seen <= s.generation
    && (s.grid != s.checked ==> s.seen < s.generation || MidWrite(s) || silent)
    && (silent || !s.resizer.Idle? ==> s.grid != s.checked)
  }

  lemma {:induction false} StepKeepsSince(met: Grid -> bool, s: State, a: Action, silent: bool)
    requires Since(s, silent) && s.waiter.Parked? && Enabled(s, a)
    ensures var t := After(met, s, a);
            t.waiter.Parked? ==> t.checked == s.checked && Since(t, silent || a.UpgradeFails?)
  {
    assert !WritesGrid(a) ==> After(met, s, a).grid == s.grid;
    assert WritesGrid(a) ==> |After(met, s, a).grid| > |s.grid|;
  }

  /** A waiter that is parked has just checked, or was parked before. */
  lemma {:induction false} ParksByChecking(met: Grid -> bool, s: State, a: Action)
    requires Enabled(s, a) && After(met, s, a).waiter.Parked?
    ensures if a.Check?
            then After(met, s, a).checked == s.grid && (s.seen <= s.generation ==> Since(After(met, s, a), false))
            else s.waiter.Parked?
  {
  }

  lemma {:induction false} SeenIsPast(met: Grid -> bool, run: seq<State>, actions: seq<Action>, i: nat)
    requires IsRun(met, run, actions) && i < |run|
    ensures run[i].seen <= run[i].generation
  {
    RunKeepsInv(met, run, actions, i);
  }

  lemma {:induction false} GridSinceCheck(met: Grid -> bool, run: seq<State>, actions: seq<Action>, c: nat, i: nat)
    requires IsRun(met, run, actions) && i <= |actions| && LastCheck(actions, c, i) && run[i].waiter.Parked?
    ensures run[i].checked == run[c].grid && Since(run[i], SilentResize(actions, c, i))
    decreases i
  {
    assert StepsAt(met, run, actions, i - 1);
    ParksByChecking(met, run[i - 1], actions[i - 1]);
    if i == c + 1 {
      SeenIsPast(met, run, actions, c);
    } else {
      GridSinceCheck(met, run, actions, c, i - 1);
      SilentStep(actions, c, i);
      StepKeepsSince(met, run[i - 1], actions[i - 1], SilentResize(actions, c, i - 1));
    }
  }

  lemma SilentStep(actions: seq<Action>, c: nat, i: nat)
    requires c + 1 < i <= |actions|
    ensures SilentResize(actions, c, i) <==> SilentResize(actions, c, i - 1) || actions[i - 1].UpgradeFails?
  {
  }

  /** A waiter that is parked or has answered has checked. */
  lemma {:induction false} HasChecked(met: Grid -> bool, run: seq<State>, actions: seq<Action>, i: nat)
      returns (c: nat)
    requires IsRun(met, run, actions) && i < |run| && (run[i].waiter.Parked? || run[i].waiter.Answered?)
    ensures LastCheck(actions, c, i)
  {
    assert StepsAt(met, run, actions, i - 1);
    if actions[i - 1].Check? {
      c := i - 1;
    } else {
      c := HasChecked(met, run, actions, i - 1);
    }
  }

  /**
   When the waiter answers `ended`, the grid is the one it checked exactly when no
   resize since that check found the sender gone and none is about to.
   */
  lemma EndedOnFinalGridIff(met: Grid -> bool, run: seq<State>, actions: seq<Action>, i: nat) returns (c: nat)
    requires IsRun(met, run, actions) && i < |actions| && actions[i].SenderGone?
    ensures LastCheck(actions, c, i) && !run[i].resizer.Upgraded?
    ensures run[i].grid == run[i].checked <==> !SilentResize(actions, c, i) && run[i].resizer.Idle?
    ensures !SilentResize(actions, c, i) && run[i].resizer.Idle? ==> !met(run[i + 1].grid)
  {
    assert StepsAt(met, run, actions, i);
    c := HasChecked(met, run, actions, i);
    GridSinceCheck(met, run, actions, c, i);
    RunKeepsInv(met, run, actions, i);
  }

  lemma {:induction false} Extend(met: Grid -> bool, run: seq<State>, actions: seq<Action>, a: Action)
      returns (run': seq<State>, actions': seq<Action>)
    requires IsRun(met, run, actions) && Enabled(run[|actions|], a)
    ensures IsRun(met, run', actions') && actions' == actions + [a]
    ensures run'[|actions'|] == After(met, run[|actions|], a) && run <= run'
  {
    run', actions' := run + [After(met, run[|actions|], a)], actions + [a];
    forall i | 0 <= i <= |actions| ensures StepsAt(met, run', actions', i) {
      assert i < |actions| ==> StepsAt(met, run, actions, i);
    }
  }

  lemma {:induction false} ParkedOn(met: Grid -> bool, g: Grid, deadline: nat)
      returns (run: seq<State>, actions: seq<Action>)
    requires !met(g)
    ensures IsRun(met, run, actions) && actions == [Mark, Check]
    ensures run[2] == State(g, 0, Chunks(g), Receiving, Idle, Parked, 0, g, None, 0, deadline)
  {
    run, actions := [State(g, 0, Chunks(g), Receiving, Idle, LoopHead, 0, [], None, 0, deadline)], [];
    run, actions := Extend(met, run, actions, Mark);
    run, actions := Extend(met, run, actions, Check);
  }

  /**
   Resizes can go unnoticed, and then `ended` is answered on a grid that meets the
   condition: the feeder only has to be gone when the resizer looks for the sender,
   whether the resize began before its exit or after.
   */
  lemma LateResizeIsSilent(met: Grid -> bool, g: Grid, cols: nat, rows: nat, beforeExit: bool)
      returns (run: seq<State>, actions: seq<Action>)
    requires !met(g) && met(g + [Resized(cols, rows)])
    ensures IsRun(met, run, actions)
    ensures run[|actions|].waiter == Answered(Ended) && met(run[|actions|].grid)
    ensures actions == if beforeExit
                       then [Mark, Check, Resize(cols, rows), FeederExit, UpgradeFails, SenderGone]
                       else [Mark, Check, FeederExit, Resize(cols, rows), UpgradeFails, SenderGone]
  {
    run, actions := ParkedOn(met, g, 1);
    var third, fourth := Resize(cols, rows), FeederExit;
    if !beforeExit {
      third, fourth := fourth, third;
    }
    run, actions := Extend(met, run, actions, third);
    run, actions := Extend(met, run, actions, fourth);
    run, actions := Extend(met, run, actions, UpgradeFails);
    run, actions := Extend(met, run, actions, SenderGone);
  }

  // ----- marks and locks -------------------------------------------------------------------

  predicate Bumps(a: Action) {
    a.FeederBump? || a.ResizerBump?
  }

  lemma {:induction false} MarkedIsSeen(met: Grid -> bool, run: seq<State>, actions: seq<Action>, i: nat, j: nat)
    requires IsRun(met, run, actions) && i < j < |run| && actions[i].Mark?
    requires forall k :: i < k < j ==> !Bumps(actions[k])
    ensures run[j].seen == run[j].generation
    decreases j
  {
    assert StepsAt(met, run, actions, j - 1);
    if j > i + 1 {
      MarkedIsSeen(met, run, actions, i, j - 1);
    }
  }

  /** What was there at the mark wakes nobody: a wakeup has a bump since. */
  lemma WakeIsNew(met: Grid -> bool, run: seq<State>, actions: seq<Action>, i: nat, j: nat)
    requires IsRun(met, run, actions) && i < j < |actions| && actions[i].Mark? && actions[j].Wake?
    ensures exists k :: i < k < j && Bumps(actions[k])
  {
    assert StepsAt(met, run, actions, j);
    if forall k :: i < k < j ==> !Bumps(actions[k]) {
      MarkedIsSeen(met, run, actions, i, j);
    }
  }

  /** A bump wakes a parked waiter at once, and a sender gone for good is noticed, whoever holds the terminal. */
  lemma ParkedIsReached(met: Grid -> bool, run: seq<State>, actions: seq<Action>, i: nat)
    requires IsRun(met, run, actions) && i < |actions| && run[i + 1].waiter.Parked?
    ensures Bumps(actions[i]) ==> Enabled(run[i + 1], Wake)
    ensures var s := run[i + 1];
            s.feeder.Exited? && !s.resizer.Upgraded? ==> Enabled(s, Wake) || Enabled(s, SenderGone)
  {
    assert StepsAt(met, run, actions, i);
    SeenIsPast(met, run, actions, i);
    SeenIsPast(met, run, actions, i + 1);
  }

  /** From a resize to its bump or its failure to find a sender, nobody else touches the terminal. */
  lemma LockExcludes(met: Grid -> bool, run: seq<State>, actions: seq<Action>, i: nat)
    requires IsRun(met, run, actions) && i < |actions| && !run[i].resizer.Idle?
    ensures !WritesGrid(actions[i]) && !actions[i].Check? && !actions[i].Snapshot?
    ensures run[i + 1].grid == run[i].grid
  {
    assert StepsAt(met, run, actions, i);
  }

  // ----- every wait can end ----------------------------------------------------------------

  /** A parked waiter can wait out its deadline: so many ticks, and the sleep fires. */
  lemma {:induction false} WaitCanTimeOut(met: Grid -> bool, run: seq<State>, actions: seq<Action>)
      returns (run': seq<State>, actions': seq<Action>)
    requires IsRun(met, run, actions) && run[|actions|].waiter.Parked?
    ensures IsRun(met, run', actions') && actions <= actions' && run'[|actions'|].waiter == Answered(TimedOut)
    decreases run[|actions|].deadline - run[|actions|].now
  {
    var s := run[|actions|];
    if s.deadline <= s.now {
      run', actions' := Extend(met, run, actions, DeadlineFires);
    } else {
      run', actions' := Extend(met, run, actions, Tick);
      run', actions' := WaitCanTimeOut(met, run', actions');
    }
  }

  /** A resize while the feeder lives bumps, and a parked waiter wakes to see it. */
  lemma ResizeWakes(met: Grid -> bool, run: seq<State>, actions: seq<Action>, cols: nat, rows: nat)
      returns (run': seq<State>, actions': seq<Action>)
    requires IsRun(met, run, actions)
    requires var s := run[|actions|];
             && s.waiter.Parked? && LockFree(s) && !s.feeder.Exited? && met(s.grid + [Resized(cols, rows)])
    ensures IsRun(met, run', actions') && run'[|actions'|].waiter == Answered(Matched)
    ensures run'[|actions'|].checked == run[|actions|].grid + [Resized(cols, rows)]
  {
    SeenIsPast(met, run, actions, |actions|);
    run', actions' := Extend(met, run, actions, Resize(cols, rows));
    run', actions' := Extend(met, run', actions', Upgrade);
    run', actions' := Extend(met, run', actions', ResizerBump);
    run', actions' := Extend(met, run', actions', Wake);
    run', actions' := Extend(met, run', actions', Mark);
    run', actions' := Extend(met, run', actions', Check);
  }

  // ----- what an answer shows --------------------------------------------------------------

  lemma {:induction false} StepGrows(met: Grid -> bool, s: State, a: Action)
    requires Enabled(s, a)
    ensures s.grid <= After(met, s, a).grid && (After(met, s, a).grid == s.grid <==> !WritesGrid(a))
    ensures !a.Check? ==> After(met, s, a).checked == s.checked
  {
  }

  ghost predicate WrittenWithin(actions: seq<Action>, c: nat, i: nat)
    requires i <= |actions|
  {
    exists k :: c < k < i && WritesGrid(actions[k])
  }

  lemma WrittenStep(actions: seq<Action>, c: nat, i: nat)
    requires c + 1 < i <= |actions|
    ensures WrittenWithin(actions, c, i) <==> WrittenWithin(actions, c, i - 1) || WritesGrid(actions[i - 1])
  {
  }

  lemma {:induction false} GridGrows(met: Grid -> bool, run: seq<State>, actions: seq<Action>, c: nat, i: nat)
    requires IsRun(met, run, actions) && i <= |actions| && LastCheck(actions, c, i)
    ensures run[i].checked == run[c].grid <= run[i].grid
    ensures run[i].grid == run[c].grid <==> !WrittenWithin(actions, c, i)
    decreases i
  {
    assert StepsAt(met, run, actions, i - 1);
    StepGrows(met, run[i - 1], actions[i - 1]);
    if i > c + 1 {
      GridGrows(met, run, actions, c, i - 1);
      WrittenStep(actions, c, i);
    }
  }

  /** The screen shown is the one the condition was checked against exactly when nothing wrote in between. */
  lemma ShownIsCheckedIff(met: Grid -> bool, run: seq<State>, actions: seq<Action>, i: nat) returns (c: nat)
    requires IsRun(met, run, actions) && i < |actions| && actions[i].Snapshot?
    ensures LastCheck(actions, c, i)
    ensures run[i + 1].shown == Some(run[i + 1].checked) <==> !WrittenWithin(actions, c, i)
  {
    assert StepsAt(met, run, actions, i);
    c := HasChecked(met, run, actions, i);
    GridGrows(met, run, actions, c, i);
  }

  /** A timeout can show a screen that meets the condition: fed since the check, and before the snapshot. */
  lemma TimeoutShowsMatch(met: Grid -> bool, g: Grid, chunk: Chunk) returns (run: seq<State>, actions: seq<Action>)
    requires !met(g) && met(g + [Fed(chunk)])
    ensures IsRun(met, run, actions) && run[|actions|].waiter == Answered(TimedOut)
    ensures run[|actions|].shown == Some(g + [Fed(chunk)])
  {
    run, actions := ParkedOn(met, g, 0);
    run, actions := Extend(met, run, actions, DeadlineFires);
    run, actions := Extend(met, run, actions, PushTail(chunk));
    run, actions := Extend(met, run, actions, Feed);
    run, actions := Extend(met, run, actions, Snapshot);
  }

  lemma {:induction false} Feeding(met: Grid -> bool, run: seq<State>, actions: seq<Action>, chunk: Chunk)
      returns (run': seq<State>, actions': seq<Action>)
    requires IsRun(met, run, actions)
    requires run[|actions|].feeder.Receiving? && LockFree(run[|actions|])
    ensures IsRun(met, run', actions') && run <= run'
    ensures var s := run[|actions|];
            run'[|actions'|] == s.(grid := s.grid + [Fed(chunk)], received := s.received + [chunk],
                                   generation := s.generation + 1)
  {
    run', actions' := Extend(met, run, actions, PushTail(chunk));
    run', actions' := Extend(met, run', actions', Feed);
    run', actions' := Extend(met, run', actions', FeederBump);
  }

  /** A match can come and go between two checks, and then `ended` is answered although it was there. */
  lemma MatchGoesUnseen(met: Grid -> bool, g: Grid, a: Chunk, b: Chunk)
      returns (run: seq<State>, actions: seq<Action>, i: nat)
    requires !met(g) && met(g + [Fed(a)]) && !met(g + [Fed(a)] + [Fed(b)])
    ensures IsRun(met, run, actions) && i < |run| && run[i].waiter.Parked? && met(run[i].grid)
    ensures run[|actions|].waiter == Answered(Ended)
  {
    run, actions := ParkedOn(met, g, 1);
    run, actions := Feeding(met, run, actions, a);
    i := |actions|;
    run, actions := Feeding(met, run, actions, b);
    run, actions := Extend(met, run, actions, Wake);
    run, actions := Extend(met, run, actions, Mark);
    run, actions := Extend(met, run, actions, Check);
    run, actions := Extend(met, run, actions, FeederExit);
    run, actions := Extend(met, run, actions, SenderGone);
  }

  /** A condition that stays met once it is met was never met on any grid before an `ended` answer's check. */
  lemma EndedMeansNeverMet(met: Grid -> bool, run: seq<State>, actions: seq<Action>, i: nat, earlier: Grid)
    requires IsRun(met, run, actions) && i < |run| && run[i].waiter == Answered(Ended)
    requires forall grid: Grid, w: Write :: met(grid) ==> met(grid + [w])
    requires earlier <= run[i].checked
    ensures !met(earlier)
  {
    RunKeepsInv(met, run, actions, i);
    StaysMet(met, earlier, run[i].checked);
  }

  lemma {:induction false} StaysMet(met: Grid -> bool, early: Grid, late: Grid)
    requires early <= late && forall grid: Grid, w: Write :: met(grid) ==> met(grid + [w])
    ensures met(early) ==> met(late)
    decreases |late|
  {
    if |early| < |late| {
      StaysMet(met, early, late[..|late| - 1]);
      assert late == late[..|late| - 1] + [late[|late| - 1]];
    } else {
      assert early == late;
    }
  }
}
