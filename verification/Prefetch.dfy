/**
 The prefetcher (internal/galaxy/collections/prefetch.go:97-285): a pool of
 workers downloads artifacts ahead of the installs that Wait for them. A step is
 what one goroutine does between two points where another may run: taking a task
 from the channel, the part of finish under the mutex, closing the completion
 channel after it, a Wait's hand-over, and the stages of Close.

 A task's temporary file goes by its key. Multisets count events, so handing the
 same file out twice or closing a channel twice would show.
 */
module Prefetch {
  type Key = string

  // `accepted` are the collections whose identifiers newInstallTarget accepts: for
  // those an install frees the temp it was handed, for the others it drops it, which
  // is what InstallRecovery.Installer.InstallCollection promises.
  datatype Plan = Plan(tasks: set<Key>, workers: int, accepted: set<Key>)
  {
    function Capacity(): int { if workers > 1 then workers else 1 }
  }

  datatype Closer = Open | Joined | Reclaimed

  datatype State = State(
    queued: set<Key>,        // waiting in the channel
    fetching: set<Key>,      // in prefetchOne
    recorded: set<Key>,      // finish has left the mutex, the channel is still open
    closed: multiset<Key>,   // close(done) calls
    stash: set<Key>,         // p.prefetched
    blocked: multiset<Key>,  // calls of Wait under way
    held: multiset<Key>,     // temps a Wait handed to its caller
    lost: multiset<Key>,     // temps whose caller returned without releasing them
    produced: multiset<Key>, // temps ever downloaded
    released: multiset<Key>, // cleanup calls
    canceled: bool,
    closer: Closer)

  datatype Step =
    | Take(key: Key)
    | Record(key: Key, temp: bool)
    | Signal(key: Key)
    | Wait(key: Key)
    | Receive(key: Key)
    | Release(key: Key)
    | Lose(key: Key)         // newInstallTarget refused the collection
    | Cancel
    | Join
    | Reclaim

  predicate Can(p: Plan, s: State, k: Step) {
    match k
    case Take(key) => key in s.queued && |s.fetching + s.recorded| < p.Capacity()
    case Record(key, _) => key in s.fetching
    case Signal(key) => key in s.recorded
    case Wait(key) => true
    case Receive(key) => key in s.blocked && (key in p.tasks ==> key in s.closed)
    case Release(key) => key in s.held && key in p.accepted
    case Lose(key) => key in s.held && key !in p.accepted
    case Cancel => true
    case Join => s.canceled && s.queued == {} && s.fetching == {} && s.recorded == {}
    case Reclaim => s.closer == Joined
  }

  function Next(s: State, k: Step): State {
    match k
    case Take(key) => s.(queued := s.queued - {key}, fetching := s.fetching + {key})
    case Record(key, temp) =>
      var t := s.(fetching := s.fetching - {key}, recorded := s.recorded + {key});
      if temp then t.(stash := s.stash + {key}, produced := s.produced + multiset{key}) else t
    case Signal(key) => s.(recorded := s.recorded - {key}, closed := s.closed + multiset{key})
    case Wait(key) => s.(blocked := s.blocked + multiset{key})
    case Receive(key) =>
      s.(blocked := s.blocked - multiset{key}, stash := s.stash - {key},
      held := if key in s.stash then s.held + multiset{key} else s.held)
    case Release(key) => s.(held := s.held - multiset{key}, released := s.released + multiset{key})
    case Lose(key) => s.(held := s.held - multiset{key}, lost := s.lost + multiset{key})
    case Cancel => s.(canceled := true)
    case Join => s.(closer := Joined)
    case Reclaim => s.(released := s.released + multiset(s.stash), stash := {}, closer := Reclaimed)
  }

  function Start(p: Plan): State {
    State(p.tasks, {}, {}, multiset{}, {}, multiset{}, multiset{}, multiset{}, multiset{}, multiset{}, false, Open)
  }

  ghost predicate IsRun(p: Plan, run: seq<State>, steps: seq<Step>) {
    && |run| == |steps| + 1 && run[0] == Start(p)
    && forall n: nat {:trigger steps[n]} ::
         n < |steps| ==> Can(p, run[n], steps[n]) && run[n + 1] == Next(run[n], steps[n])
  }

  // ------------------------------------------------------- the invariant

  function One(b: bool): nat { if b then 1 else 0 }

  // A task is in one place, and past the workers it is closed once; a temp is in
  // one place, and there is at most one for a task.
  predicate KeyInv(p: Plan, s: State, key: Key) {
    && One(key in s.queued) + One(key in s.fetching) + One(key in s.recorded) + s.closed[key] == One(key in p.tasks)
    && s.produced[key] == One(key in s.stash) + s.held[key] + s.lost[key] + s.released[key]
    && s.produced[key] <= One(key in s.recorded) + s.closed[key]
    && (key in s.lost ==> key !in p.accepted)
  }

  predicate Idle(s: State) { s.queued == {} && s.fetching == {} && s.recorded == {} }

  predicate Closing(s: State) {
    (s.closer != Open ==> Idle(s)) && (s.closer == Reclaimed ==> s.stash == {})
  }

  ghost predicate Inv(p: Plan, s: State) {
    && (forall key {:trigger KeyInv(p, s, key)} :: KeyInv(p, s, key))
    && Closing(s)
  }

  lemma WorkerKeepsKey(p: Plan, s: State, k: Step, key: Key)
    requires KeyInv(p, s, key) && Can(p, s, k) && OfWorkers(k)
    ensures KeyInv(p, Next(s, k), key)
  {
    match k
    case Take(x) => assert x == key || Next(s, k).closed[key] == s.closed[key];
    case Record(x, temp) => assert x == key || Next(s, k).produced[key] == s.produced[key];
    case Signal(x) => assert Next(s, k).closed[key] == s.closed[key] + One(x == key);
  }

  lemma HandOverKeepsKey(p: Plan, s: State, x: Key, key: Key)
    requires KeyInv(p, s, key) && Can(p, s, Receive(x))
    ensures KeyInv(p, Next(s, Receive(x)), key)
  {
    var t := Next(s, Receive(x));
    assert t.held[key] == s.held[key] + One(x == key && key in s.stash);
  }

  lemma EndKeepsKey(p: Plan, s: State, k: Step, key: Key)
    requires KeyInv(p, s, key) && Can(p, s, k) && (k.Release? || k.Lose?)
    ensures KeyInv(p, Next(s, k), key)
  {
    assert Next(s, k).held[key] == s.held[key] - One(k.key == key);
  }

  lemma StepKeepsKey(p: Plan, s: State, k: Step, key: Key)
    requires KeyInv(p, s, key) && Can(p, s, k)
    ensures KeyInv(p, Next(s, k), key)
  {
    match k
    case Receive(x) => HandOverKeepsKey(p, s, x, key);
    case Release(_) => EndKeepsKey(p, s, k, key);
    case Lose(_) => EndKeepsKey(p, s, k, key);
    case Reclaim => assert multiset(s.stash)[key] == One(key in s.stash);
    case Wait(_) =>
    case Cancel =>
    case Join =>
    case _ => WorkerKeepsKey(p, s, k, key);
  }

  lemma StepKeepsClosing(p: Plan, s: State, k: Step)
    requires Closing(s) && Can(p, s, k)
    ensures Closing(Next(s, k))
  {
    if k.Receive? && s.stash == {} { assert Next(s, k).stash == {}; }
  }

  lemma {:induction false} Reachable(p: Plan, run: seq<State>, steps: seq<Step>, n: nat)
    requires IsRun(p, run, steps) && n < |run|
    ensures Inv(p, run[n])
  {
    if n > 0 {
      Reachable(p, run, steps, n - 1);
      var s, k := run[n - 1], steps[n - 1];
      StepKeepsClosing(p, s, k);
      forall key {:trigger KeyInv(p, Next(s, k), key)} ensures KeyInv(p, Next(s, k), key) {
        assert KeyInv(p, s, key);
        StepKeepsKey(p, s, k, key);
      }
    }
  }

  // -------------------------------------------------------------- temps

  /** No temp is released twice, handed out twice, or released while some Wait's
      caller still has it; none is released that was not downloaded. */
  lemma EachTempInOnePlace(p: Plan, run: seq<State>, steps: seq<Step>, n: nat, key: Key)
    requires IsRun(p, run, steps) && n < |run|
    ensures var s := run[n];
            && One(key in s.stash) + s.held[key] + s.lost[key] + s.released[key] == s.produced[key]
            && s.produced[key] <= One(key in p.tasks)
  {
    Reachable(p, run, steps, n);
    assert KeyInv(p, run[n], key);
  }

  /** Once Close has returned and every caller of Wait has finished, a downloaded
      temp has been released exactly once, unless its caller dropped it on its way
      out: then never, and only for a collection whose identifiers are refused. So
      every temp of an accepted collection is released exactly once. */
  lemma ReleasedExactlyOnce(p: Plan, run: seq<State>, steps: seq<Step>, n: nat, key: Key)
    requires IsRun(p, run, steps) && n < |run| && run[n].closer == Reclaimed && run[n].held == multiset{}
    requires key in run[n].produced
    ensures var s := run[n];
            && s.released[key] == (if key in s.lost then 0 else 1)
            && s.lost[key] <= 1
            && (key in p.accepted ==> s.released[key] == 1)
  {
    Reachable(p, run, steps, n);
    assert KeyInv(p, run[n], key);
  }

  lemma ReclaimedStays(p: Plan, s: State, k: Step)
    requires Can(p, s, k) && Closing(s) && s.closer != Open && s.stash == {}
    ensures Next(s, k).closer != Open && Next(s, k).stash == {} && Next(s, k).produced == s.produced
  {}

  /** Close is final: after it nothing is stashed, so a second Close, or a Wait
      that comes late, finds nothing to release. */
  lemma {:induction false} NothingAfterClose(p: Plan, run: seq<State>, steps: seq<Step>, m: nat, n: nat)
    requires IsRun(p, run, steps) && m <= n < |run| && run[m].closer == Reclaimed
    ensures run[n].stash == {} && run[n].produced == run[m].produced && run[n].closer != Open
    decreases n - m
  {
    Reachable(p, run, steps, m);
    if m < n {
      NothingAfterClose(p, run, steps, m, n - 1);
      Reachable(p, run, steps, n - 1);
      ReclaimedStays(p, run[n - 1], steps[n - 1]);
    }
  }

  // Step n left the key's temp in the stash, and nothing before state m took it out.
  ghost predicate StashedAt(steps: seq<Step>, n: nat, m: nat, key: Key)
    requires m <= |steps|
  {
    && n < m && steps[n] == Record(key, true)
    && forall j: nat :: n < j < m ==> steps[j] != Receive(key) && steps[j] != Reclaim
  }

  lemma StashStep(p: Plan, s: State, k: Step, key: Key)
    requires Can(p, s, k)
    ensures key in Next(s, k).stash <==>
            k == Record(key, true) || (key in s.stash && k != Receive(key) && k != Reclaim)
  {}

  // The next step stores it, takes it out, or leaves it where it was.
  lemma StashedNext(steps: seq<Step>, n: nat, m: nat, key: Key)
    requires m < |steps|
    ensures var k := steps[m];
            StashedAt(steps, n, m + 1, key) <==>
            (n == m && k == Record(key, true)) || (StashedAt(steps, n, m, key) && k != Receive(key) && k != Reclaim)
  {
    if StashedAt(steps, n, m + 1, key) && n != m { assert n < m; }
  }

  lemma {:induction false} StashMeans(p: Plan, run: seq<State>, steps: seq<Step>, m: nat, key: Key)
    requires IsRun(p, run, steps) && m <= |steps|
    ensures key in run[m].stash <==> exists n: nat :: StashedAt(steps, n, m, key)
  {
    if m > 0 {
      var before, k := m - 1, steps[m - 1];
      StashMeans(p, run, steps, before, key);
      StashStep(p, run[before], k, key);
      if k == Record(key, true) {
        StashedNext(steps, before, before, key);
      } else if key in run[m].stash {
        var n: nat :| StashedAt(steps, n, before, key);
        StashedNext(steps, n, before, key);
      } else {
        forall n: nat ensures !StashedAt(steps, n, m, key) { StashedNext(steps, n, before, key); }
      }
    }
  }

  /** Which Wait gets the temp: the first one let through after the download put it
      there, unless Close came before it; every other Wait gets none. */
  lemma FirstWaitGetsIt(p: Plan, run: seq<State>, steps: seq<Step>, m: nat, key: Key)
    requires IsRun(p, run, steps) && m < |steps| && steps[m] == Receive(key)
    ensures run[m + 1].held[key] ==
            run[m].held[key] + if exists n: nat :: StashedAt(steps, n, m, key) then 1 else 0
    ensures key !in run[m + 1].stash
  {
    StashMeans(p, run, steps, m, key);
  }

  // ------------------------------------------------------------- waiting

  /** The completion channel of a key is closed at most once, and only after
      finish recorded what came of it: a Wait that gets through finds it. */
  lemma CompletionFiresOnce(p: Plan, run: seq<State>, steps: seq<Step>, n: nat, key: Key)
    requires IsRun(p, run, steps) && n < |run|
    ensures var s := run[n];
            && s.closed[key] <= 1
            && (key in s.closed <==> key in p.tasks && key !in s.queued && key !in s.fetching && key !in s.recorded)
  {
    Reachable(p, run, steps, n);
    assert KeyInv(p, run[n], key);
  }

  predicate OfWorkers(k: Step) { k.Take? || k.Record? || k.Signal? }

  // Worker steps still to come.
  function Ahead(s: State): nat { 3 * |s.queued| + 2 * |s.fetching| + |s.recorded| }

  function WorkerSteps(steps: seq<Step>): nat {
    if steps == [] then 0
    else WorkerSteps(steps[..|steps| - 1]) + One(OfWorkers(steps[|steps| - 1]))
  }

  lemma StepAhead(p: Plan, s: State, k: Step)
    requires Inv(p, s) && Can(p, s, k)
    ensures Ahead(Next(s, k)) + One(OfWorkers(k)) == Ahead(s)
  {
    var t := Next(s, k);
    match k
    case Take(key) =>
      assert KeyInv(p, s, key);
      assert |t.queued| == |s.queued| - 1 && |t.fetching| == |s.fetching| + 1;
    case Record(key, _) =>
      assert KeyInv(p, s, key);
      assert |t.fetching| == |s.fetching| - 1 && |t.recorded| == |s.recorded| + 1;
    case Signal(key) =>
      assert KeyInv(p, s, key);
      assert |t.recorded| == |s.recorded| - 1;
    case _ =>
  }

  lemma {:induction false} WorkIsBounded(p: Plan, run: seq<State>, steps: seq<Step>, n: nat)
    requires IsRun(p, run, steps) && n <= |steps|
    ensures WorkerSteps(steps[..n]) + Ahead(run[n]) == 3 * |p.tasks|
  {
    if n > 0 {
      WorkIsBounded(p, run, steps, n - 1);
      Reachable(p, run, steps, n - 1);
      StepAhead(p, run[n - 1], steps[n - 1]);
      assert steps[..n][..n - 1] == steps[..n - 1];
    }
  }

  // A worker can move.
  ghost predicate WorkerCanMove(p: Plan, s: State) {
    exists k: Step :: OfWorkers(k) && Can(p, s, k)
  }

  lemma BusyOrIdle(p: Plan, s: State)
    ensures WorkerCanMove(p, s) <==> !Idle(s)
  {
    if f :| f in s.fetching {
      assert OfWorkers(Record(f, false)) && Can(p, s, Record(f, false));
    } else if r :| r in s.recorded {
      assert OfWorkers(Signal(r)) && Can(p, s, Signal(r));
    } else if q :| q in s.queued {
      assert s.fetching + s.recorded == {};
      assert OfWorkers(Take(q)) && Can(p, s, Take(q));
    }
  }

  /** No Wait blocks forever, canceled or not: the workers move at most three
      times for every task, one of them can move as long as some task is not
      complete, and when none can every Wait can return. */
  lemma NoWaitBlocksForever(p: Plan, run: seq<State>, steps: seq<Step>, n: nat, key: Key)
    requires IsRun(p, run, steps) && n <= |steps| && key in run[n].blocked
    ensures WorkerCanMove(p, run[n]) || Can(p, run[n], Receive(key))
    ensures WorkerSteps(steps[..n]) <= 3 * |p.tasks|
  {
    WorkIsBounded(p, run, steps, n);
    Reachable(p, run, steps, n);
    BusyOrIdle(p, run[n]);
    assert KeyInv(p, run[n], key);
  }

  /** Close's join waits for the workers alone, so it gets through as well. */
  lemma CloseGetsThrough(p: Plan, run: seq<State>, steps: seq<Step>, n: nat)
    requires IsRun(p, run, steps) && n < |run| && run[n].canceled
    ensures WorkerCanMove(p, run[n]) <==> !Can(p, run[n], Join)
  {
    BusyOrIdle(p, run[n]);
  }

  // ------------------------------------------------------------ workers

  lemma OneMore(a: set<Key>, b: set<Key>, key: Key)
    requires a <= b + {key}
    ensures |a| <= |b| + 1
  {
    if key in a {
      Fewer(a - {key}, b);
    } else {
      Fewer(a, b);
    }
  }

  lemma Fewer(a: set<Key>, b: set<Key>)
    requires a <= b
    ensures |a| <= |b|
  {
    assert b == a + (b - a);
  }

  lemma WorkerBounded(p: Plan, s: State, k: Step)
    requires Can(p, s, k) && OfWorkers(k) && |s.fetching + s.recorded| <= p.Capacity()
    ensures |Next(s, k).fetching + Next(s, k).recorded| <= p.Capacity()
  {
    var before, after := s.fetching + s.recorded, Next(s, k).fetching + Next(s, k).recorded;
    match k
    case Take(key) =>
      assert after == before + {key};
      OneMore(after, before, key);
    case Record(key, _) => assert after == before;
    case Signal(_) => Fewer(after, before);
  }

  lemma StepBounded(p: Plan, s: State, k: Step)
    requires Can(p, s, k) && |s.fetching + s.recorded| <= p.Capacity()
    ensures |Next(s, k).fetching + Next(s, k).recorded| <= p.Capacity()
  {
    if OfWorkers(k) {
      WorkerBounded(p, s, k);
    } else {
      assert Next(s, k).fetching == s.fetching && Next(s, k).recorded == s.recorded;
    }
  }

  /** At most max(DownloadWorkers, 1) tasks are between the channel and the close of
      their completion channel. */
  lemma {:induction false} WorkersBounded(p: Plan, run: seq<State>, steps: seq<Step>, n: nat)
    requires IsRun(p, run, steps) && n < |run|
    ensures |run[n].fetching + run[n].recorded| <= p.Capacity()
  {
    if n == 0 {
      assert run[0].fetching + run[0].recorded == {};
    } else {
      WorkersBounded(p, run, steps, n - 1);
      StepBounded(p, run[n - 1], steps[n - 1]);
    }
  }
}
