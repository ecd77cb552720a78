/**
 Waiting for a quiet grid: the stability window restarts on every event the
 waiter consumes and must end by the deadline.
 */
module StableWait {
  import opened Basics

  datatype Phase = LoopHead | Marked | Selecting | Answered(matched: bool, ended: bool)

  /** `bumps[v]` is the time of the bump to version `v + 1`. */
  datatype State = State(
    now: nat,
    bumps: seq<nat>,
    closed: bool,
    seen: nat,
    senderGone: bool,
    windowEnd: nat,
    phase: Phase,
    lastConsumed: nat,
    windowsAfterGone: nat)

  datatype Action =
    | Tick | Bump | CloseSender
    | Mark | OpenWindow | ConsumeChange | ConsumeClose | SleepFires

  predicate Initial(s: State) {
    && s.phase.LoopHead? && s.seen <= |s.bumps| && !s.senderGone && s.windowsAfterGone == 0
    && s.lastConsumed <= s.now && forall v :: 0 <= v < |s.bumps| ==> s.bumps[v] <= s.now
  }

  predicate Enabled(deadline: nat, s: State, a: Action) {
    match a
    case Tick => true
    case Bump => !s.closed
    case CloseSender => !s.closed
    case Mark => s.phase.LoopHead?
    case OpenWindow => s.phase.Marked?
    case ConsumeChange => s.phase.Selecting? && !s.senderGone && s.seen < |s.bumps|
    case ConsumeClose => s.phase.Selecting? && !s.senderGone && s.seen == |s.bumps| && s.closed
    case SleepFires => s.phase.Selecting? && Min(s.windowEnd, deadline) <= s.now
  }

  /** After activity: out of time, or round the loop again. */
  function Restart(deadline: nat, s: State): Phase {
    if s.now >= deadline then Answered(false, s.senderGone) else LoopHead
  }

  function After(window: nat, deadline: nat, s: State, a: Action): State {
    match a
    case Tick => s.(now := s.now + 1)
    case Bump => s.(bumps := s.bumps + [s.now])
    case CloseSender => s.(closed := true)
    case Mark => s.(phase := Marked, seen := |s.bumps|)
    case OpenWindow =>
      s.(phase := Selecting, windowEnd := s.now + window,
         windowsAfterGone := s.windowsAfterGone + if s.senderGone then 1 else 0)
    case ConsumeChange =>
      s.(seen := |s.bumps|, lastConsumed := s.now, phase := Restart(deadline, s))
    case ConsumeClose =>
      var gone := s.(senderGone := true, lastConsumed := s.now);
      gone.(phase := Restart(deadline, gone))
    case SleepFires =>
      s.(phase := if s.windowEnd <= deadline then Answered(true, false) else Answered(false, s.senderGone))
  }

  // ----- what every step keeps -----------------------------------------------------

  /** Everything consumed or marked so far is at least a window before `end`. */
  ghost predicate QuietUntil(window: nat, s: State, end: nat) {
    && s.lastConsumed + window <= end && s.seen <= |s.bumps|
    && forall v :: 0 <= v < s.seen ==> s.bumps[v] + window <= end
  }

  ghost predicate Inv(window: nat, deadline: nat, s: State) {
    && s.seen <= |s.bumps| && s.lastConsumed <= s.now && (s.senderGone ==> s.closed)
    && (forall v :: 0 <= v < |s.bumps| ==> s.bumps[v] <= s.now)
    && (!s.senderGone ==> s.windowsAfterGone == 0)
    && (s.phase.LoopHead? || s.phase.Marked? ==> s.windowsAfterGone == 0)
    && s.windowsAfterGone <= 1
    && match s.phase
       case Selecting => QuietUntil(window, s, s.windowEnd)
       case Answered(true, ended) =>
         !ended && QuietUntil(window, s, s.windowEnd) && s.windowEnd <= s.now && s.windowEnd <= deadline
       case Answered(false, ended) => deadline <= s.now && (ended <==> s.senderGone)
       case _ => true
  }

  lemma StepKeepsInv(window: nat, deadline: nat, s: State, a: Action)
    requires Inv(window, deadline, s) && Enabled(deadline, s, a)
    ensures Inv(window, deadline, After(window, deadline, s, a))
  {
  }

  // ----- runs -------------------------------------------------------------------------

  ghost predicate IsRun(window: nat, deadline: nat, run: seq<State>, actions: seq<Action>) {
    && |run| == |actions| + 1 && Initial(run[0])
    && forall i :: 0 <= i < |actions| ==>
         Enabled(deadline, run[i], actions[i]) && run[i + 1] == After(window, deadline, run[i], actions[i])
  }

  lemma {:induction false} RunKeepsInv(window: nat, deadline: nat, run: seq<State>, actions: seq<Action>, i: nat)
    requires IsRun(window, deadline, run, actions) && i < |run|
    ensures Inv(window, deadline, run[i])
  {
    if i > 0 {
      RunKeepsInv(window, deadline, run, actions, i - 1);
      StepKeepsInv(window, deadline, run[i - 1], actions[i - 1]);
    }
  }

  /**
   A match comes only after a full window since the last consumed event and since
   every bump the waiter has seen, and that window ended by the deadline.
   */
  lemma MatchFollowsQuietWindow(window: nat, deadline: nat, run: seq<State>, actions: seq<Action>, i: nat)
    requires IsRun(window, deadline, run, actions) && i < |run|
    requires run[i].phase.Answered? && run[i].phase.matched
    ensures run[i].lastConsumed + window <= run[i].windowEnd <= run[i].now
    ensures run[i].windowEnd <= deadline
    ensures forall v :: 0 <= v < run[i].seen <= |run[i].bumps| ==> run[i].bumps[v] + window <= run[i].windowEnd
  {
    RunKeepsInv(window, deadline, run, actions, i);
  }

  /** The close of the sender was among the events consumed before step `i`. */
  ghost predicate CloseConsumed(actions: seq<Action>, i: nat)
    requires i <= |actions|
  {
    exists k :: 0 <= k < i && actions[k].ConsumeClose?
  }

  lemma {:induction false} GoneMeansCloseConsumed(window: nat, deadline: nat, run: seq<State>, actions: seq<Action>,
                                                  i: nat)
    requires IsRun(window, deadline, run, actions) && i < |run|
    ensures run[i].senderGone <==> CloseConsumed(actions, i)
  {
    if i > 0 {
      GoneMeansCloseConsumed(window, deadline, run, actions, i - 1);
      assert CloseConsumed(actions, i) <==> CloseConsumed(actions, i - 1) || actions[i - 1].ConsumeClose?;
    }
  }

  /** It never gives up before the deadline, and says `ended` exactly when it has consumed the close of the sender. */
  lemma GivesUpOnlyAtDeadline(window: nat, deadline: nat, run: seq<State>, actions: seq<Action>, i: nat)
    requires IsRun(window, deadline, run, actions) && i < |run|
    requires run[i].phase.Answered? && !run[i].phase.matched
    ensures deadline <= run[i].now
    ensures run[i].phase.ended <==> CloseConsumed(actions, i)
    ensures run[i].phase.ended ==> run[i].closed
  {
    RunKeepsInv(window, deadline, run, actions, i);
    GoneMeansCloseConsumed(window, deadline, run, actions, i);
  }

  predicate Consumes(a: Action) {
    a.ConsumeChange? || a.ConsumeClose?
  }

  /** The window opened at `m` has seen no event consumed up to step `j`. */
  ghost predicate QuietSince(actions: seq<Action>, m: nat, j: nat)
    requires j <= |actions|
  {
    m < j && actions[m].OpenWindow? && forall k :: m < k < j ==> !Consumes(actions[k])
  }

  /** Until something is consumed, or its sleep has fired, the window stays open as it was opened. */
  lemma {:induction false} WindowStays(window: nat, deadline: nat, run: seq<State>, actions: seq<Action>,
                                       m: nat, j: nat)
    requires IsRun(window, deadline, run, actions) && j <= |actions| && QuietSince(actions, m, j)
    ensures run[j].phase.Selecting? || run[j].phase.Answered?
    ensures run[j].phase.Selecting? ==>
              run[j].windowEnd == run[m].now + window && run[j].senderGone == run[m].senderGone
    decreases j
  {
    if j > m + 1 {
      WindowStays(window, deadline, run, actions, m, j - 1);
    }
  }

  /**
   A quiet window is answered: its sleep can fire as soon as the window or the deadline is
   over, and then it is a match exactly when the whole window lay before the deadline.
   */
  lemma QuietWindowIsAnswered(window: nat, deadline: nat, run: seq<State>, actions: seq<Action>, m: nat, j: nat)
    requires IsRun(window, deadline, run, actions) && j <= |actions| && QuietSince(actions, m, j)
    ensures run[j].phase.Selecting? ==>
              (Enabled(deadline, run[j], SleepFires) <==> Min(run[m].now + window, deadline) <= run[j].now)
    ensures j < |actions| && actions[j].SleepFires? ==>
              run[j + 1].phase == if run[m].now + window <= deadline then Answered(true, false)
                                  else Answered(false, CloseConsumed(actions, j))
  {
    WindowStays(window, deadline, run, actions, m, j);
    GoneMeansCloseConsumed(window, deadline, run, actions, j);
  }

  /** The version is seen up to the last mark, so a change consumed later was bumped since. */
  lemma {:induction false} MarkedIsSeen(window: nat, deadline: nat, run: seq<State>, actions: seq<Action>,
                                        i: nat, j: nat)
    requires IsRun(window, deadline, run, actions) && i < j < |run| && actions[i].Mark?
    requires forall k :: i < k < j ==> !actions[k].Bump?
    ensures run[j].seen == |run[j].bumps|
    decreases j
  {
    if j > i + 1 {
      MarkedIsSeen(window, deadline, run, actions, i, j - 1);
    }
  }

  lemma ConsumedIsNew(window: nat, deadline: nat, run: seq<State>, actions: seq<Action>, i: nat, j: nat)
    requires IsRun(window, deadline, run, actions) && i < j < |actions| && actions[i].Mark? && actions[j].ConsumeChange?
    ensures exists k :: i < k < j && actions[k].Bump?
  {
    if forall k :: i < k < j ==> !actions[k].Bump? {
      MarkedIsSeen(window, deadline, run, actions, i, j);
    }
  }

  /** An event consumed before the deadline goes round the loop; at the deadline it is the last the waiter does. */
  lemma {:induction false} LateEventIsLast(window: nat, deadline: nat, run: seq<State>, actions: seq<Action>,
                                           i: nat, j: nat)
    requires IsRun(window, deadline, run, actions) && i < j < |run| && Consumes(actions[i])
    ensures run[i].now >= deadline ==>
              run[j].phase == Answered(false, CloseConsumed(actions, i + 1))
    ensures run[i].now < deadline ==> run[i + 1].phase == LoopHead
    decreases j
  {
    GoneMeansCloseConsumed(window, deadline, run, actions, i + 1);
    if j > i + 1 {
      LateEventIsLast(window, deadline, run, actions, i, j - 1);
    }
  }

  /** Once the sender is known to be gone, at most one more window is opened. */
  lemma OneWindowAfterClose(window: nat, deadline: nat, run: seq<State>, actions: seq<Action>, i: nat, j: nat)
    requires IsRun(window, deadline, run, actions) && i < j < |actions|
    requires run[i].senderGone && actions[i].OpenWindow?
    ensures !actions[j].OpenWindow?
  {
    RunKeepsInv(window, deadline, run, actions, j + 1);
    WindowsCounted(window, deadline, run, actions, i + 1, j);
    assert run[i + 1].windowsAfterGone >= 1;
  }

  lemma {:induction false} WindowsCounted(window: nat, deadline: nat, run: seq<State>, actions: seq<Action>,
                                          i: nat, j: nat)
    requires IsRun(window, deadline, run, actions) && i <= j < |run|
    ensures run[i].windowsAfterGone <= run[j].windowsAfterGone
    ensures run[i].senderGone ==> run[j].senderGone
    decreases j - i
  {
    if i < j {
      WindowsCounted(window, deadline, run, actions, i, j - 1);
    }
  }

  /** The window that is open or ended in a match was opened by step `m`. */
  ghost predicate OpenedAt(window: nat, run: seq<State>, actions: seq<Action>, m: nat, j: nat)
    requires |run| == |actions| + 1 && j < |run|
  {
    m < j && actions[m].OpenWindow? && run[j].windowEnd == run[m].now + window
  }

  /**
   Every consumed event restarts the window: whatever window is open later, or ended
   in a match, was opened after that event and ends a full window after it at the earliest.
   */
  lemma {:induction false} ConsumedEventRestarts(window: nat, deadline: nat, run: seq<State>,
                                                 actions: seq<Action>, i: nat, j: nat)
    requires IsRun(window, deadline, run, actions) && i < j < |run|
    requires Consumes(actions[i])
    ensures run[i].now <= run[j].now
    ensures run[j].phase.Selecting? || (run[j].phase.Answered? && run[j].phase.matched) ==>
              && run[i].now + window <= run[j].windowEnd
              && exists m :: i < m && OpenedAt(window, run, actions, m, j)
    decreases j
  {
    if j > i + 1 {
      ConsumedEventRestarts(window, deadline, run, actions, i, j - 1);
      var s, t := run[j - 1], run[j];
      if actions[j - 1].OpenWindow? {
        assert OpenedAt(window, run, actions, j - 1, j);
      } else if t.phase.Selecting? || (t.phase.Answered? && t.phase.matched) {
        var m :| i < m && OpenedAt(window, run, actions, m, j - 1);
        assert OpenedAt(window, run, actions, m, j);
      }
    }
  }

  // ----- runs there are -----------------------------------------------------------------------

  lemma {:induction false} Extend(window: nat, deadline: nat, run: seq<State>, actions: seq<Action>, a: Action)
      returns (run': seq<State>, actions': seq<Action>)
    requires IsRun(window, deadline, run, actions) && Enabled(deadline, run[|actions|], a)
    ensures IsRun(window, deadline, run', actions') && actions' == actions + [a]
    ensures run'[|actions'|] == After(window, deadline, run[|actions|], a) && run'[0] == run[0]
  {
    run', actions' := run + [After(window, deadline, run[|actions|], a)], actions + [a];
  }

  lemma {:induction false} Wait(window: nat, deadline: nat, run: seq<State>, actions: seq<Action>, ticks: nat)
      returns (run': seq<State>, actions': seq<Action>)
    requires IsRun(window, deadline, run, actions)
    ensures IsRun(window, deadline, run', actions')
    ensures var s := run[|actions|]; run'[|actions'|] == s.(now := s.now + ticks) && run'[0] == run[0]
    decreases ticks
  {
    run', actions' := run, actions;
    if ticks > 0 {
      run', actions' := Extend(window, deadline, run, actions, Tick);
      run', actions' := Wait(window, deadline, run', actions', ticks - 1);
    }
  }

  /** A grid that stays quiet is matched one window after the waiter starts, if that is by the deadline. */
  lemma QuietGridMatches(window: nat, deadline: nat, s: State) returns (run: seq<State>, actions: seq<Action>)
    requires Initial(s) && s.now + window <= deadline
    ensures IsRun(window, deadline, run, actions) && run[0] == s
    ensures run[|actions|].phase == Answered(true, false) && run[|actions|].now == s.now + window
    ensures run[|actions|].bumps == s.bumps
  {
    run, actions := Opened(window, deadline, [s], []);
    run, actions := Wait(window, deadline, run, actions, window);
    run, actions := Extend(window, deadline, run, actions, SleepFires);
  }

  lemma {:induction false} Opened(window: nat, deadline: nat, run: seq<State>, actions: seq<Action>)
      returns (run': seq<State>, actions': seq<Action>)
    requires IsRun(window, deadline, run, actions) && run[|actions|].phase.LoopHead?
    ensures IsRun(window, deadline, run', actions') && actions' == actions + [Mark, OpenWindow]
    ensures run'[0] == run[0]
    ensures run'[|actions'|] ==
            After(window, deadline, After(window, deadline, run[|actions|], Mark), OpenWindow)
  {
    run', actions' := Extend(window, deadline, run, actions, Mark);
    run', actions' := Extend(window, deadline, run', actions', OpenWindow);
  }

  /** A bump in the window is consumed, so is a close after it, and at the deadline the answer says `ended`. */
  lemma BusyThenClosed(window: nat, deadline: nat, s: State) returns (run: seq<State>, actions: seq<Action>)
    requires Initial(s) && !s.closed && s.now < deadline < s.now + window
    ensures IsRun(window, deadline, run, actions) && run[0] == s
    ensures run[|actions|].phase == Answered(false, true) && |run[|actions|].bumps| == |s.bumps| + 1
  {
    run, actions := Opened(window, deadline, [s], []);
    run, actions := Extend(window, deadline, run, actions, Bump);
    run, actions := Extend(window, deadline, run, actions, ConsumeChange);
    run, actions := Opened(window, deadline, run, actions);
    run, actions := Extend(window, deadline, run, actions, CloseSender);
    run, actions := Extend(window, deadline, run, actions, ConsumeClose);
    run, actions := Opened(window, deadline, run, actions);
    run, actions := Wait(window, deadline, run, actions, deadline - s.now);
    run, actions := Extend(window, deadline, run, actions, SleepFires);
  }
}
