/**
 installLevels and runInstallLevel of
 internal/galaxy/collections/install_command.go: one dispatching loop, a pool
 of workers bounded by a semaphore, a failure count that stops the next level
 and a context that may be canceled at any moment.
 */
module InstallRun {
  import opened CollectionKeys
  import opened InstallLevels

  datatype Plan = Plan(graph: Graph, levels: seq<seq<Key>>, collections: set<Key>, workers: int)
  {
    // What buildInstallLevels hands over.
    ghost predicate Valid() { Layered(graph, levels) && Covers(graph, levels) }

    function Capacity(): int { if workers > 1 then workers else 1 }
  }

  // The dispatching loop: about to look at the next key, blocked on the
  // semaphore with a key it has already checked, joining the level's workers,
  // or returned.
  datatype Loop = Dispatching | Admitted(key: Key) | Joining(missing: bool) | Returned(missing: bool)

  datatype State = State(
    loop: Loop,
    level: nat,
    pos: nat,            // keys of the level already handed out
    canceled: bool,
    waiting: set<Key>,   // worker started, blocked on its prefetch
    running: set<Key>,   // inside installCollection
    ok: set<Key>,        // installCollection returned nil
    failed: set<Key>)    // installCollection returned an error, recorded

  datatype Step =
    | Cancel
    | Check               // the loop looks at the next key, or past the level's end
    | Acquire             // the semaphore lets the admitted key's worker start
    | Start(key: Key)     // the worker enters installCollection
    | Return(key: Key, success: bool)
    | Joined              // wg.Wait returned

  ghost predicate Can(p: Plan, s: State, k: Step) {
    match k
    case Cancel => true
    case Check => s.loop.Dispatching? && s.level < |p.levels| && s.pos <= |p.levels[s.level]|
    case Acquire => s.loop.Admitted? && |s.waiting + s.running| < p.Capacity()
    case Start(key) => key in s.waiting
    case Return(key, _) => key in s.running
    case Joined => s.loop.Joining? && s.waiting == {} && s.running == {} && s.level < |p.levels|
  }

  ghost function Next(p: Plan, s: State, k: Step): State
    requires Can(p, s, k)
  {
    match k
    case Cancel => s.(canceled := true)
    case Check =>
      var level := p.levels[s.level];
      if s.pos == |level| then s.(loop := Joining(false))
      else if s.canceled then s.(loop := Joining(false))
      else if level[s.pos] !in p.collections then s.(loop := Joining(true))
      else s.(loop := Admitted(level[s.pos]))
    case Acquire => s.(loop := Dispatching, pos := s.pos + 1, waiting := s.waiting + {s.loop.key})
    case Start(key) => s.(waiting := s.waiting - {key}, running := s.running + {key})
    case Return(key, success) =>
      s.(running := s.running - {key},
      ok := if success then s.ok + {key} else s.ok,
      failed := if success then s.failed else s.failed + {key})
    case Joined =>
      if s.loop.missing then s.(loop := Returned(true))
      else if s.failed != {} then s.(loop := Returned(false))
      else if s.level + 1 == |p.levels| then s.(loop := Returned(false), level := s.level + 1, pos := 0)
      else s.(loop := Dispatching, level := s.level + 1, pos := 0)
  }

  ghost predicate Init(p: Plan, s: State) {
    s == State(if p.levels == [] then Returned(false) else Dispatching, 0, 0, s.canceled, {}, {}, {}, {})
  }

  ghost predicate IsRun(p: Plan, run: seq<State>, steps: seq<Step>) {
    && |run| == |steps| + 1 && Init(p, run[0])
    && forall n: nat {:trigger steps[n]} ::
         n < |steps| ==> Can(p, run[n], steps[n]) && run[n + 1] == Next(p, run[n], steps[n])
  }

  // The key has been handed to a worker.
  ghost predicate HandedOut(p: Plan, s: State, key: Key) {
    || Below(p.levels, s.level, key)
    || (s.level < |p.levels| && s.pos <= |p.levels[s.level]| && key in p.levels[s.level][..s.pos])
  }

  ghost predicate Cleared(p: Plan, s: State, key: Key) {
    forall d: Key :: d in Deps(p.graph, key) ==> d in s.ok
  }

  ghost predicate LevelsBelowDone(p: Plan, s: State) {
    forall key: Key :: Below(p.levels, s.level, key) ==> key in s.ok
  }

  function Begun(s: State): set<Key> { s.waiting + s.running + s.ok + s.failed }

  ghost predicate InBounds(p: Plan, s: State) {
    && s.level <= |p.levels|
    && (!s.loop.Returned? ==> s.level < |p.levels| && s.pos <= |p.levels[s.level]|)
    && (s.loop.Admitted? ==> s.pos < |p.levels[s.level]| && s.loop.key == p.levels[s.level][s.pos])
  }

  ghost predicate Workers(p: Plan, s: State) {
    && |s.waiting + s.running| <= p.Capacity()
    && s.waiting !! s.running && (s.waiting + s.running) !! (s.ok + s.failed)
    && (s.loop.Returned? ==> s.waiting == {} && s.running == {})
    && (forall key: Key {:trigger Cleared(p, s, key)} :: key in s.waiting + s.running ==> Cleared(p, s, key))
  }

  // Exactly the keys handed out have begun.
  ghost predicate Dispatched(p: Plan, s: State) {
    && (forall key: Key {:trigger HandedOut(p, s, key)} :: key in Begun(s) ==> HandedOut(p, s, key))
    && (s.level < |p.levels| && s.pos <= |p.levels[s.level]| ==>
          forall key: Key :: key in p.levels[s.level][..s.pos] ==> key in Begun(s))
  }

  ghost predicate Progress(p: Plan, s: State) {
    && (s.loop.Admitted? ==> LevelsBelowDone(p, s))
    && (s.canceled || LevelsBelowDone(p, s))
    && (s.loop == Joining(false) && s.level < |p.levels| ==> s.canceled || s.pos == |p.levels[s.level]|)
    && (s.loop == Returned(false) && s.failed == {} ==> s.level == |p.levels|)
  }

  ghost predicate Inv(p: Plan, s: State) {
    InBounds(p, s) && Workers(p, s) && Dispatched(p, s) && Progress(p, s)
  }

  lemma HandedOutOnce(p: Plan, s: State)
    requires p.Valid() && InBounds(p, s) && s.loop.Admitted?
    ensures !HandedOut(p, s, s.loop.key)
  {
    var level := p.levels[s.level];
    var key := level[s.pos];
    assert Distinct(level);
    assert key in p.levels[s.level];
    assert !Below(p.levels, s.level, key);
  }

  lemma AdmittedIsCleared(p: Plan, s: State)
    requires p.Valid() && InBounds(p, s) && Progress(p, s) && s.loop.Admitted?
    ensures Cleared(p, s, s.loop.key)
  {
    assert Fits(p.graph, p.levels, s.level, s.loop.key);
  }

  lemma LevelDone(p: Plan, s: State)
    requires Inv(p, s) && Can(p, s, Joined) && s.loop == Joining(false) && s.failed == {} && !s.canceled
    ensures LevelsBelowDone(p, s.(level := s.level + 1))
  {
    var level := p.levels[s.level];
    assert level[..|level|] == level;
    forall key: Key | Below(p.levels, s.level + 1, key) ensures key in s.ok {
      var j: nat :| j < s.level + 1 && j < |p.levels| && key in p.levels[j];
      if j < s.level { assert Below(p.levels, s.level, key); }
    }
  }

  // The admitted key joins the workers: it is new to them and cleared.
  lemma AcquireKeepsWorkers(p: Plan, s: State)
    requires p.Valid() && Inv(p, s) && Can(p, s, Acquire)
    ensures Workers(p, Next(p, s, Acquire))
  {
    var s' := Next(p, s, Acquire);
    HandedOutOnce(p, s);
    AdmittedIsCleared(p, s);
    assert s.loop.key !in Begun(s);
    assert s'.waiting + s'.running == (s.waiting + s.running) + {s.loop.key};
    forall key: Key | key in s'.waiting + s'.running ensures Cleared(p, s', key) {
      assert Cleared(p, s, key);
    }
  }

  lemma AcquireKeepsDispatched(p: Plan, s: State)
    requires p.Valid() && Inv(p, s) && Can(p, s, Acquire)
    ensures Dispatched(p, Next(p, s, Acquire))
  {
    var s' := Next(p, s, Acquire);
    var level := p.levels[s.level];
    assert level[..s'.pos] == level[..s.pos] + [s.loop.key];
    forall key: Key | key in Begun(s') ensures HandedOut(p, s', key) {
      if key != s.loop.key { assert HandedOut(p, s, key); }
    }
  }

  lemma JoinedKeepsDispatched(p: Plan, s: State)
    requires p.Valid() && Inv(p, s) && Can(p, s, Joined)
    ensures Dispatched(p, Next(p, s, Joined))
  {
    var s' := Next(p, s, Joined);
    forall key: Key | key in Begun(s') ensures HandedOut(p, s', key) {
      assert HandedOut(p, s, key);
      if s'.level == s.level + 1 {
        if Below(p.levels, s.level, key) {
          var j: nat :| j < s.level && j < |p.levels| && key in p.levels[j];
          assert Below(p.levels, s'.level, key);
        } else {
          assert key in p.levels[s.level];
          assert Below(p.levels, s'.level, key);
        }
      }
    }
  }

  lemma JoinedKeepsRest(p: Plan, s: State)
    requires p.Valid() && Inv(p, s) && Can(p, s, Joined)
    ensures InBounds(p, Next(p, s, Joined)) && Workers(p, Next(p, s, Joined)) && Progress(p, Next(p, s, Joined))
  {
    var s' := Next(p, s, Joined);
    if s'.level == s.level + 1 && !s.canceled { LevelDone(p, s); }
    assert s'.waiting + s'.running == {};
  }

  // A worker starting or returning, and a cancellation.
  lemma WorkerKeepsWorkers(p: Plan, s: State, k: Step)
    requires Workers(p, s) && Can(p, s, k) && (k.Start? || k.Return? || k.Cancel?)
    ensures Workers(p, Next(p, s, k))
  {
    var s' := Next(p, s, k);
    if k.Start? {
      assert s'.waiting + s'.running == s.waiting + s.running;
    } else if k.Return? {
      assert s'.waiting + s'.running == (s.waiting + s.running) - {k.key};
    }
    forall key: Key | key in s'.waiting + s'.running ensures Cleared(p, s', key) {
      assert Cleared(p, s, key);
    }
  }

  lemma WorkerKeepsInv(p: Plan, s: State, k: Step)
    requires Inv(p, s) && Can(p, s, k) && (k.Start? || k.Return? || k.Cancel?)
    ensures Inv(p, Next(p, s, k))
  {
    var s' := Next(p, s, k);
    WorkerKeepsWorkers(p, s, k);
    assert Begun(s') == Begun(s);
    forall key: Key | key in Begun(s') ensures HandedOut(p, s', key) {
      assert HandedOut(p, s, key);
    }
  }

  lemma CheckKeepsInv(p: Plan, s: State)
    requires Inv(p, s) && Can(p, s, Check)
    ensures Inv(p, Next(p, s, Check))
  {
    var s' := Next(p, s, Check);
    forall key: Key | key in s'.waiting + s'.running ensures Cleared(p, s', key) {
      assert Cleared(p, s, key);
    }
    forall key: Key | key in Begun(s') ensures HandedOut(p, s', key) {
      assert HandedOut(p, s, key);
    }
  }

  lemma StepKeepsInv(p: Plan, s: State, k: Step)
    requires p.Valid() && Inv(p, s) && Can(p, s, k)
    ensures Inv(p, Next(p, s, k))
  {
    match k
    case Acquire => AcquireKeepsWorkers(p, s); AcquireKeepsDispatched(p, s);
    case Joined => JoinedKeepsDispatched(p, s); JoinedKeepsRest(p, s);
    case Check => CheckKeepsInv(p, s);
    case _ => WorkerKeepsInv(p, s, k);
  }

  lemma {:induction false} RunKeepsInv(p: Plan, run: seq<State>, steps: seq<Step>, n: nat)
    requires p.Valid() && IsRun(p, run, steps) && n < |run|
    ensures Inv(p, run[n])
  {
    if n > 0 {
      RunKeepsInv(p, run, steps, n - 1);
      assert Can(p, run[n - 1], steps[n - 1]) && run[n] == Next(p, run[n - 1], steps[n - 1]);
      StepKeepsInv(p, run[n - 1], steps[n - 1]);
    }
  }

  /** Whenever a collection's install starts, in any interleaving and whatever
      fails or is canceled when, every dependency's install has already returned
      without error, and the collection itself was never started before. */
  lemma DependenciesFirst(p: Plan, run: seq<State>, steps: seq<Step>, n: nat)
    requires p.Valid() && IsRun(p, run, steps) && n < |steps| && steps[n].Start?
    ensures forall d: Key :: d in Deps(p.graph, steps[n].key) ==> d in run[n].ok
    ensures steps[n].key !in run[n].running + run[n].ok + run[n].failed
  {
    RunKeepsInv(p, run, steps, n);
    assert Can(p, run[n], steps[n]);
    assert Cleared(p, run[n], steps[n].key);
  }

  /** At most max(Workers, 1) workers are under way at any time. */
  lemma BoundedWorkers(p: Plan, run: seq<State>, steps: seq<Step>, n: nat)
    requires p.Valid() && IsRun(p, run, steps) && n < |run|
    ensures |run[n].waiting + run[n].running| <= p.Capacity()
  {
    RunKeepsInv(p, run, steps, n);
  }

  /** A run that returns without a missing collection, a failure or a
      cancellation has installed every node of the graph; in any case no worker
      outlives the return. */
  lemma CompleteUnlessStopped(p: Plan, run: seq<State>, steps: seq<Step>, n: nat)
    requires p.Valid() && IsRun(p, run, steps) && n < |run| && run[n].loop.Returned?
    ensures run[n].waiting == {} && run[n].running == {}
    ensures !run[n].loop.missing && run[n].failed == {} && !run[n].canceled ==>
              forall key: Key :: IsNode(p.graph, key) ==> key in run[n].ok
  {
    RunKeepsInv(p, run, steps, n);
  }

  // Why the loop stopped where it did.
  ghost predicate Reasons(p: Plan, s: State) {
    && (s.loop == Joining(true) || s.loop == Returned(true) ==>
          s.level < |p.levels| && s.pos < |p.levels[s.level]| && p.levels[s.level][s.pos] !in p.collections)
    && (s.loop == Joining(false) || s.loop == Returned(false) ==>
          s.level < |p.levels| ==> s.canceled || s.pos == |p.levels[s.level]|)
    && (s.loop.Admitted? ==> s.loop.key in p.collections)
    && Begun(s) <= p.collections
  }

  lemma StepKeepsReasons(p: Plan, s: State, k: Step)
    requires InBounds(p, s) && Reasons(p, s) && Can(p, s, k)
    ensures Reasons(p, Next(p, s, k))
  {
    var t := Next(p, s, k);
    match k
    case Acquire => assert Begun(t) == Begun(s) + {s.loop.key};
    case Start(_) => assert Begun(t) == Begun(s);
    case Return(_, _) => assert Begun(t) == Begun(s);
    case _ => assert Begun(t) == Begun(s);
  }

  lemma {:induction false} RunHasReasons(p: Plan, run: seq<State>, steps: seq<Step>, n: nat)
    requires p.Valid() && IsRun(p, run, steps) && n < |run|
    ensures Reasons(p, run[n])
  {
    if n > 0 {
      RunHasReasons(p, run, steps, n - 1);
      RunKeepsInv(p, run, steps, n - 1);
      assert Can(p, run[n - 1], steps[n - 1]) && run[n] == Next(p, run[n - 1], steps[n - 1]);
      StepKeepsReasons(p, run[n - 1], steps[n - 1]);
    }
  }

  /** The loop only stops for a reason: it reports a missing collection exactly when it
      met a key that has none; otherwise, unless canceled, every level below the one it
      stopped at is installed and every key of that one was, with or without success. */
  lemma ReturnsForAReason(p: Plan, run: seq<State>, steps: seq<Step>, n: nat)
    requires p.Valid() && IsRun(p, run, steps) && n < |run| && run[n].loop.Returned?
    ensures var s := run[n];
            && (s.loop.missing ==>
                  exists key: Key :: key !in p.collections && s.level < |p.levels| && key in p.levels[s.level])
            && (!s.loop.missing && !s.canceled ==>
                  && (forall key: Key :: Below(p.levels, s.level, key) ==> key in s.ok)
                  && (s.level < |p.levels| ==> s.failed != {} && Elems(p.levels[s.level]) <= s.ok + s.failed))
            && s.ok + s.failed <= p.collections
  {
    RunKeepsInv(p, run, steps, n);
    RunHasReasons(p, run, steps, n);
    var s := run[n];
    if s.loop.missing {
      assert p.levels[s.level][s.pos] in p.levels[s.level];
    } else if !s.canceled && s.level < |p.levels| {
      assert p.levels[s.level][..s.pos] == p.levels[s.level];
    }
  }

  /** What is on record is what happened: a key counts as installed exactly when its
      install returned without error, as failed exactly when it returned with one, and
      the run as canceled exactly when it was. */
  lemma {:induction false} RecordsAreExact(p: Plan, run: seq<State>, steps: seq<Step>, n: nat, key: Key)
    requires IsRun(p, run, steps) && n <= |steps|
    ensures key in run[n].ok <==> Return(key, true) in steps[..n]
    ensures key in run[n].failed <==> Return(key, false) in steps[..n]
    ensures run[n].canceled <==> run[0].canceled || Cancel in steps[..n]
  {
    if n > 0 {
      RecordsAreExact(p, run, steps, n - 1, key);
      assert Can(p, run[n - 1], steps[n - 1]) && run[n] == Next(p, run[n - 1], steps[n - 1]);
      assert steps[..n] == steps[..n - 1] + [steps[n - 1]];
    }
  }

  // After a failure no later level is begun.
  lemma {:induction false} FailureStopsNextLevel(p: Plan, run: seq<State>, steps: seq<Step>, m: nat, n: nat)
    requires p.Valid() && IsRun(p, run, steps) && m <= n < |run| && run[m].failed != {}
    ensures run[n].level == run[m].level && run[n].failed != {}
  {
    if m < n {
      FailureStopsNextLevel(p, run, steps, m, n - 1);
      assert Can(p, run[n - 1], steps[n - 1]) && run[n] == Next(p, run[n - 1], steps[n - 1]);
    }
  }

  // After a cancellation at most the one key already admitted is handed out.
  lemma {:induction false} CancellationStopsDispatch(p: Plan, run: seq<State>, steps: seq<Step>, m: nat, n: nat)
    requires p.Valid() && IsRun(p, run, steps) && m <= n < |run| && run[m].canceled
    ensures run[n].canceled
    ensures !run[m].loop.Admitted? ==> !run[n].loop.Admitted?
    ensures Begun(run[n]) <= Begun(run[m]) + (if run[m].loop.Admitted? then {run[m].loop.key} else {})
    ensures run[m].loop.Admitted? && run[n].loop.Admitted? ==> run[n].loop == run[m].loop
  {
    if m < n {
      CancellationStopsDispatch(p, run, steps, m, n - 1);
      assert Can(p, run[n - 1], steps[n - 1]) && run[n] == Next(p, run[n - 1], steps[n - 1]);
    }
  }

  // ------------------------------------------------------------ progress

  // Keys of the levels from this one on.
  function KeysFrom(levels: seq<seq<Key>>, level: nat): nat
    decreases |levels| - level
  {
    if level >= |levels| then 0 else |levels[level]| + KeysFrom(levels, level + 1)
  }

  function LoopAhead(loop: Loop): nat {
    match loop
    case Dispatching => 2
    case Admitted(_) => 1
    case Joining(_) => 1
    case Returned(_) => 0
  }

  // An upper bound on the steps still to come, cancellation aside.
  function Ahead(p: Plan, s: State): int {
    4 * (KeysFrom(p.levels, s.level) - s.pos) + 2 * (|p.levels| - s.level) + LoopAhead(s.loop)
    + 2 * |s.waiting| + |s.running|
  }

  lemma StepGetsAhead(p: Plan, s: State, k: Step)
    requires p.Valid() && Inv(p, s) && Can(p, s, k)
    ensures if k.Cancel? then Ahead(p, Next(p, s, k)) == Ahead(p, s) else Ahead(p, Next(p, s, k)) < Ahead(p, s)
  {
    var t := Next(p, s, k);
    match k
    case Acquire =>
      var key := s.loop.key;
      HandedOutOnce(p, s);
      assert key in s.waiting ==> HandedOut(p, s, key);
      assert |t.waiting| == |s.waiting| + 1;
    case Start(key) =>
      assert key !in s.running;
      assert |t.waiting| == |s.waiting| - 1 && |t.running| == |s.running| + 1;
    case Return(key, _) => assert |t.running| == |s.running| - 1;
    case Joined => assert KeysFrom(p.levels, s.level) == |p.levels[s.level]| + KeysFrom(p.levels, s.level + 1);
    case _ =>
  }

  // What is left is never negative.
  lemma AheadIsNatural(p: Plan, s: State)
    requires InBounds(p, s) && s.pos <= (if s.level < |p.levels| then |p.levels[s.level]| else 0)
    ensures Ahead(p, s) >= 0
  {
    assert s.level < |p.levels| ==>
        KeysFrom(p.levels, s.level) == |p.levels[s.level]| + KeysFrom(p.levels, s.level + 1);
  }

  function Working(steps: seq<Step>): nat {
    if steps == [] then 0 else Working(steps[..|steps| - 1]) + if steps[|steps| - 1].Cancel? then 0 else 1
  }

  lemma {:induction false} PosInBounds(p: Plan, run: seq<State>, steps: seq<Step>, n: nat)
    requires p.Valid() && IsRun(p, run, steps) && n < |run|
    ensures run[n].pos <= if run[n].level < |p.levels| then |p.levels[run[n].level]| else 0
  {
    if n > 0 {
      PosInBounds(p, run, steps, n - 1);
      RunKeepsInv(p, run, steps, n - 1);
      RunKeepsInv(p, run, steps, n);
      assert Can(p, run[n - 1], steps[n - 1]) && run[n] == Next(p, run[n - 1], steps[n - 1]);
    }
  }

  lemma {:induction false} WorkIsBounded(p: Plan, run: seq<State>, steps: seq<Step>, n: nat)
    requires p.Valid() && IsRun(p, run, steps) && n < |run|
    ensures Working(steps[..n]) + Ahead(p, run[n]) <= 4 * KeysFrom(p.levels, 0) + 2 * |p.levels| + 2
  {
    if n > 0 {
      WorkIsBounded(p, run, steps, n - 1);
      RunKeepsInv(p, run, steps, n - 1);
      assert Can(p, run[n - 1], steps[n - 1]) && run[n] == Next(p, run[n - 1], steps[n - 1]);
      StepGetsAhead(p, run[n - 1], steps[n - 1]);
      assert steps[..n][..n - 1] == steps[..n - 1];
    }
  }

  // Something but a cancellation can happen.
  ghost predicate CanWork(p: Plan, s: State) {
    exists k: Step :: !k.Cancel? && Can(p, s, k)
  }

  lemma NotStuck(p: Plan, s: State)
    requires p.Valid() && Inv(p, s) && !s.loop.Returned?
    ensures CanWork(p, s)
  {
    if key :| key in s.waiting {
      assert Can(p, s, Start(key));
    } else if key :| key in s.running {
      assert Can(p, s, Return(key, true));
    } else {
      assert s.waiting + s.running == {};
      assert Can(p, s, if s.loop.Dispatching? then Check else if s.loop.Admitted? then Acquire else Joined);
    }
  }

  /** The install never hangs, whatever fails or is canceled: until the loop has
      returned some step but a cancellation can be taken, and there are at most four
      of them for every key of the levels, two for every level and two more. */
  lemma EveryRunReturns(p: Plan, run: seq<State>, steps: seq<Step>, n: nat)
    requires p.Valid() && IsRun(p, run, steps) && n < |run|
    ensures run[n].loop.Returned? || CanWork(p, run[n])
    ensures Working(steps[..n]) <= 4 * KeysFrom(p.levels, 0) + 2 * |p.levels| + 2
  {
    RunKeepsInv(p, run, steps, n);
    if !run[n].loop.Returned? { NotStuck(p, run[n]); }
    WorkIsBounded(p, run, steps, n);
    PosInBounds(p, run, steps, n);
    AheadIsNatural(p, run[n]);
  }
}
