/**
 How a lost lock reaches the run's verdict: the heartbeat goroutine, the
 release closure, cancellation of the parent context and the judgement of
 LockLostError, interleaved step by step.
 */
module LockLoss {

  // context.Cause of the holder context; the first cancellation wins.
  datatype Cause = Live | LossCause | ParentCause | ReleaseCause

  // startHeartbeat's goroutine. The loss takes two steps to record: the flag
  // first, the cancellation second.
  datatype Heartbeat = Waiting | Looking | SawForeign | Flagged | Stopped

  // The release closure, from before it is called to its answer.
  datatype Closure = NotCalled | Called | Joined | Canceled | Unlocking | Returned(lossReported: bool)

  datatype State = State(
    parentLive: bool,
    cause: Cause,
    lost: bool,            // the atomic flag shared by tick and release
    heartbeat: Heartbeat,
    closure: Closure,
    sawForeign: bool,      // history: some tick's HEAD saw a foreign token
    lossWhileLive: bool,   // history: a tick canceled the holder for a loss, parent not canceled
    asked: bool)           // history: the release sent its own HEAD or DELETE

  const START := State(true, Live, false, Waiting, NotCalled, false, false, false)

  datatype Step =
    | TickStarts | TickSeesOwn | TickSeesForeign | TickFails
    | TickFlags | TickCancels | TickerStops
    | ReleaseCalled | ReleaseJoins | ReleaseCancels | ReleaseDecides | ReleaseFinishes
    | ParentCancels | ParentReachesHolder

  predicate Can(s: State, k: Step) {
    match k
    case TickStarts => s.heartbeat.Waiting?
    case TickSeesOwn => s.heartbeat.Looking?
    case TickSeesForeign => s.heartbeat.Looking?
    case TickFails => s.heartbeat.Looking?
    case TickFlags => s.heartbeat.SawForeign?
    case TickCancels => s.heartbeat.Flagged?
    case TickerStops => s.heartbeat.Waiting? && !s.closure.NotCalled?
    case ReleaseCalled => s.closure.NotCalled?
    case ReleaseJoins => s.closure.Called? && s.heartbeat.Stopped?
    case ReleaseCancels => s.closure.Joined?
    case ReleaseDecides => s.closure.Canceled?
    case ReleaseFinishes => s.closure.Unlocking?
    case ParentCancels => s.parentLive
    case ParentReachesHolder => !s.parentLive
  }

  function CancelHolder(s: State, cause: Cause): State {
    if s.cause.Live? then s.(cause := cause) else s
  }

  function Next(s: State, k: Step): State
    requires Can(s, k)
  {
    match k
    case TickStarts => s.(heartbeat := Looking)
    case TickSeesOwn => s.(heartbeat := Waiting)
    case TickSeesForeign => s.(heartbeat := SawForeign, sawForeign := true)
    case TickFails => s.(heartbeat := Waiting)
    case TickFlags => s.(heartbeat := Flagged, lost := true)
    case TickCancels =>
      CancelHolder(s, LossCause).(heartbeat := Stopped, lossWhileLive := s.lossWhileLive || s.parentLive)
    case TickerStops => s.(heartbeat := Stopped)
    case ReleaseCalled => s.(closure := Called)
    case ReleaseJoins => s.(closure := Joined)
    case ReleaseCancels => CancelHolder(s, ReleaseCause).(closure := Canceled)
    case ReleaseDecides => if s.lost then s.(closure := Returned(true)) else s.(closure := Unlocking, asked := true)
    case ReleaseFinishes => s.(closure := Returned(false))
    case ParentCancels => s.(parentLive := false)
    case ParentReachesHolder => CancelHolder(s, ParentCause)
  }

  ghost predicate IsRun(run: seq<State>, steps: seq<Step>) {
    && |run| == |steps| + 1 && run[0] == START
    && forall n: nat {:trigger steps[n]} ::
         n < |steps| ==> Can(run[n], steps[n]) && run[n + 1] == Next(run[n], steps[n])
  }

  // The verdict: the work's own error, or the loss wrapping it.
  datatype Err<E> = CacheLockLost(work: Verdict<E>) | Other(error: E)
  datatype Verdict<E> = Success | Failure(err: Err<E>)

  // LockLostError; a nil holder is one that Backend.Lock never returned.
  function LockLostError<E>(parentLive: bool, holder: bool, cause: Cause, work: Verdict<E>): Verdict<E> {
    if !holder then work
    else if !parentLive then work
    else if !cause.LossCause? then work
    else Failure(CacheLockLost(work))
  }

  ghost predicate Recorded(s: State) {
    && (s.lost <==> s.sawForeign && !s.heartbeat.SawForeign?)
    && (s.sawForeign <==> s.heartbeat.SawForeign? || s.lost)
    && (s.heartbeat.Flagged? ==> s.lost)
    && (s.lost ==> s.heartbeat.Flagged? || s.heartbeat.Stopped?)
    && (s.cause.LossCause? ==> s.lost && s.heartbeat.Stopped?)
    && (s.cause.ParentCause? ==> !s.parentLive)
    && (s.cause.ReleaseCause? ==> !s.sawForeign && s.heartbeat.Stopped?)
    && (!s.closure.NotCalled? && !s.closure.Called? ==> s.heartbeat.Stopped?)
    && (s.closure.Canceled? || s.closure.Unlocking? || s.closure.Returned? ==> !s.cause.Live?)
    && (s.heartbeat.Stopped? && s.lost ==> !s.cause.Live? && !s.cause.ReleaseCause?)
    && (s.lossWhileLive ==> s.lost && s.heartbeat.Stopped?)
    && (s.heartbeat.Stopped? && s.lost && s.parentLive ==> s.lossWhileLive)
    && (s.closure.Unlocking? ==> !s.lost)
    && (s.asked ==> !s.lost && (s.closure.Unlocking? || s.closure == Returned(false)))
    && (s.closure.Returned? ==> s.closure.lossReported == s.lost)
  }

  lemma {:induction false} RunRecords(run: seq<State>, steps: seq<Step>, n: nat)
    requires IsRun(run, steps) && n < |run|
    ensures Recorded(run[n])
  {
    if n > 0 {
      RunRecords(run, steps, n - 1);
      var s := run[n - 1];
      assert Can(s, steps[n - 1]) && run[n] == Next(s, steps[n - 1]);
    }
  }

  // A tick canceled the holder for a loss before the parent was canceled.
  ghost predicate CanceledWhileLive(steps: seq<Step>, n: nat)
    requires n <= |steps|
  {
    exists j: nat :: j < n && steps[j] == TickCancels && ParentCancels !in steps[..j]
  }

  // The release went to the bucket before any tick had flagged a loss.
  ghost predicate DecidedToAsk(steps: seq<Step>, n: nat)
    requires n <= |steps|
  {
    exists j: nat :: j < n && steps[j] == ReleaseDecides && TickFlags !in steps[..j]
  }

  lemma StepLeaves(s: State, k: Step)
    requires Can(s, k)
    ensures var t := Next(s, k);
            && (t.sawForeign <==> s.sawForeign || k == TickSeesForeign)
            && (t.lost <==> s.lost || k == TickFlags)
            && (t.parentLive <==> s.parentLive && k != ParentCancels)
            && (t.lossWhileLive <==> s.lossWhileLive || (k == TickCancels && s.parentLive))
            && (t.asked <==> s.asked || (k == ReleaseDecides && !s.lost))
  {}

  lemma OneMoreStep(steps: seq<Step>, n: nat)
    requires n < |steps|
    ensures forall k: Step :: k in steps[..n + 1] <==> k in steps[..n] || k == steps[n]
    ensures CanceledWhileLive(steps, n + 1) <==>
            CanceledWhileLive(steps, n) || (steps[n] == TickCancels && ParentCancels !in steps[..n])
    ensures DecidedToAsk(steps, n + 1) <==>
            DecidedToAsk(steps, n) || (steps[n] == ReleaseDecides && TickFlags !in steps[..n])
  {
    assert steps[..n + 1] == steps[..n] + [steps[n]];
  }

  /** The history is what happened: a foreign token counts as seen exactly when a tick
      saw one, a loss as recorded under a live parent exactly when a tick canceled the
      holder before the parent was canceled, and the bucket as asked exactly when the
      release decided to while no tick had flagged a loss. */
  lemma {:induction false} HistoryIsExact(run: seq<State>, steps: seq<Step>, n: nat)
    requires IsRun(run, steps) && n <= |steps|
    ensures run[n].sawForeign <==> TickSeesForeign in steps[..n]
    ensures run[n].parentLive <==> ParentCancels !in steps[..n]
    ensures run[n].lost <==> TickFlags in steps[..n]
    ensures run[n].lossWhileLive <==> CanceledWhileLive(steps, n)
    ensures run[n].asked <==> DecidedToAsk(steps, n)
  {
    if n > 0 {
      HistoryIsExact(run, steps, n - 1);
      OneMoreStep(steps, n - 1);
      assert Can(run[n - 1], steps[n - 1]);
      StepLeaves(run[n - 1], steps[n - 1]);
    }
  }

  lemma {:induction false} LossSticks(run: seq<State>, steps: seq<Step>, m: nat, n: nat)
    requires IsRun(run, steps) && m <= n < |run| && !run[m].cause.Live?
    ensures run[n].cause == run[m].cause && (run[n].parentLive ==> run[m].parentLive)
  {
    if m < n {
      LossSticks(run, steps, m, n - 1);
      assert Can(run[n - 1], steps[n - 1]) && run[n] == Next(run[n - 1], steps[n - 1]);
    }
  }

  /** Loss is never masked. Once a tick that saw a foreign token has canceled
      the holder (at moment m of any run), every later judgement made with a
      live parent is the loss, whatever the work returned and whether or not
      release has already run its own cancellation. */
  lemma LossIsNeverMasked<E>(run: seq<State>, steps: seq<Step>, m: nat, n: nat, work: Verdict<E>)
    requires IsRun(run, steps) && m <= n < |run|
    requires run[m].heartbeat.Stopped? && run[m].sawForeign && run[n].parentLive
    ensures LockLostError(run[n].parentLive, true, run[n].cause, work) == Failure(CacheLockLost(work))
  {
    RunRecords(run, steps, m);
    RunRecords(run, steps, n);
    LossSticks(run, steps, m, n);
  }

  /** Release reports the loss exactly when some tick saw a foreign token, and
      then it has asked the bucket for nothing, so it deleted nothing. */
  lemma ReleaseReportsExactlyTheLoss(run: seq<State>, steps: seq<Step>, n: nat)
    requires IsRun(run, steps) && n < |run| && run[n].closure.Returned?
    ensures run[n].closure.lossReported <==> run[n].sawForeign
    ensures run[n].sawForeign ==> !run[n].asked
  {
    RunRecords(run, steps, n);
  }

  /** The verdict is the loss exactly when a tick canceled the holder for one while
      the parent was live and the parent still is, and else the work's own: a clean
      run is never called lost, nor one that ended or was interrupted, nor one whose
      lock was never granted. */
  lemma VerdictNamesOnlyRealLosses<E>(run: seq<State>, steps: seq<Step>, n: nat, work: Verdict<E>)
    requires IsRun(run, steps) && n < |run|
    ensures LockLostError(run[n].parentLive, true, run[n].cause, work) ==
            if run[n].parentLive && run[n].lossWhileLive then Failure(CacheLockLost(work)) else work
    ensures LockLostError(run[n].parentLive, false, run[n].cause, work) == work
    ensures run[n].parentLive ==>
              (run[n].cause.LossCause? <==> run[n].lossWhileLive)
    ensures run[n].lossWhileLive ==> run[n].sawForeign
  {
    RunRecords(run, steps, n);
  }

  /** A loss seen in the middle of a release still wins over release's own
      cancellation, because release joins the heartbeat first. */
  lemma ReleaseNeverOverwritesALoss(run: seq<State>, steps: seq<Step>, n: nat)
    requires IsRun(run, steps) && n < |run| && run[n].closure.Returned?
    ensures run[n].cause.ReleaseCause? ==> !run[n].sawForeign
    ensures run[n].parentLive ==> (run[n].cause.LossCause? <==> run[n].sawForeign)
  {
    RunRecords(run, steps, n);
  }
}
