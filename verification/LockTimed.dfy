/**
 Timed mutual exclusion of the lock: when the recorded lifetime covers the
 longest stretch a holder can go without a landed refresh, at most one client
 holds the lock in every reachable state.
 */
module LockTimed {
  import opened LockProtocol
  import opened LockUntimed

  // The longest time from computing a deadline to the last effect that relies
  // on it: first for the deadline of the acquiring PUT, computed when the wait
  // may just have started; then for the deadline of a heartbeat.
  function FirstStretch(cfg: Config): int {
    var t := cfg.timing;
    t.waitCeiling + (cfg.env.firstBudget + 1) * t.interval + t.opTimeout + t.releaseTimeout
  }

  function LaterStretch(cfg: Config): int {
    var t := cfg.timing;
    (cfg.env.laterBudget + 1) * t.interval + t.opTimeout + t.releaseTimeout
  }

  // Truncating the deadline to whole seconds may cost all but a nanosecond of
  // one, and two clocks may disagree by twice the skew.
  function Margin(cfg: Config): int { SECOND - 1 + 2 * cfg.env.skew }

  predicate LongEnough(cfg: Config) {
    FirstStretch(cfg) + Margin(cfg) <= cfg.timing.ttl && LaterStretch(cfg) + Margin(cfg) <= cfg.timing.ttl
  }

  // Until when a client may rely on the deadline it last wrote.
  function SafeUntil(cfg: Config, c: Client): int { c.asOf + cfg.timing.ttl - Margin(cfg) }

  // The latest tick a holder may still have to wait for.
  function LastTick(cfg: Config, c: Client): int {
    if c.refreshed then c.asOf + (cfg.env.laterBudget + 1) * cfg.timing.interval
    else c.began + cfg.timing.waitCeiling + (cfg.env.firstBudget + 1) * cfg.timing.interval
  }

  predicate StampOk(cfg: Config, stamp: Stamp, from: int, now: int) {
    from <= stamp.at <= now && Near(cfg.env, stamp.at, stamp.read)
  }

  ghost predicate InTime(cfg: Config, now: int, c: Client) {
    var t := cfg.timing;
    && c.asOf <= now
    && (c.phase.Acquiring() ==> c.began <= c.asOf && now <= c.began + t.waitCeiling)
    && (c.phase.Creating? || c.phase.Swapping? ==> StampOk(cfg, c.phase.stamp, c.asOf, now))
    && (c.phase.Holder() ==>
          && c.tickAt + c.left * t.interval <= LastTick(cfg, c)
          && c.began <= c.asOf
          && (if c.phase.Holding? then now <= c.tickAt else c.tickAt <= now <= c.tickAt + t.opTimeout))
    && (c.phase.Refreshing? ==>
          StampOk(cfg, c.phase.stamp, c.tickAt, now) && c.asOf <= c.phase.stamp.at &&
          (c.phase.landed ==> c.asOf == c.phase.stamp.at && c.left == cfg.env.laterBudget && c.refreshed))
    && (c.phase.Ending() ==> now <= c.until <= SafeUntil(cfg, c))
  }

  // What the object on the key, and the swaps aimed at it, say about time.
  ghost predicate Deadlines(cfg: Config, s: State, c: Client) {
    var b := s.bucket;
    && (b.Owned(c.token) ==> b.slot.deadline >= SafeUntil(cfg, c) + cfg.env.skew)
    && (c.phase.Judging? ==>
          c.phase.seen.Object? && c.phase.seen.etag <= b.writes &&
          (b.slot.Object? && b.slot.etag == c.phase.seen.etag ==> b.slot == c.phase.seen))
    && (c.phase.Swapping? ==>
          c.phase.etag <= b.writes &&
          (b.slot.Object? && b.slot.etag == c.phase.etag ==> b.slot.deadline < s.now + cfg.env.skew))
  }

  ghost predicate Timed(cfg: Config, s: State) {
    && (s.bucket.slot.Object? ==> s.bucket.slot.etag == s.bucket.writes)
    && forall i: nat :: i < |s.clients| ==> InTime(cfg, s.now, s.clients[i]) && Deadlines(cfg, s, s.clients[i])
  }

  lemma Product(n: nat, k: int)
    requires 0 <= k
    ensures 0 <= n * k
  {}

  // A client that relies on the key does so while its deadline lies ahead.
  lemma ReliesInTime(cfg: Config, now: int, c: Client)
    requires cfg.WellFormed() && LongEnough(cfg) && InTime(cfg, now, c)
    requires Relies(c.phase) || c.phase.Acquiring() || c.phase.Holder()
    ensures now <= SafeUntil(cfg, c)
    ensures !c.phase.Ending() ==> now + cfg.timing.releaseTimeout <= SafeUntil(cfg, c)
  {
    Product(c.left, cfg.timing.interval);
    Product(cfg.env.firstBudget + 1, cfg.timing.interval);
  }

  lemma TimedExcludesHits(cfg: Config, s: State)
    requires cfg.WellFormed() && LongEnough(cfg) && Timed(cfg, s)
    ensures NoSwapHitsOwner(s)
  {
    forall i: nat, j: nat | i < |s.clients| && j < |s.clients| && Relies(s.clients[i].phase) &&
                            s.clients[j].phase.Swapping? && s.bucket.Owned(s.clients[i].token)
      ensures s.bucket.slot.etag != s.clients[j].phase.etag
    {
      ReliesInTime(cfg, s.now, s.clients[i]);
      assert Deadlines(cfg, s, s.clients[i]) && Deadlines(cfg, s, s.clients[j]);
    }
  }

  predicate Heartbeat(m: Move) {
    m.TickBegin? || m.TickLook? || m.TickStamp? || m.TickLand? || m.TickEnd? || m.TickFail? || m.TickLose?
  }

  // A tick that refreshed nothing spends one failure and moves one interval on.
  lemma FailedTickStaysInTime(cfg: Config, now: int, c: Client)
    requires cfg.WellFormed() && InTime(cfg, now, c) && c.phase.Ticking() && c.left > 0
    ensures InTime(cfg, now, NextTick(cfg, c))
  {
    var left, step := c.left, cfg.timing.interval;
    assert (left - 1) * step == left * step - step;
  }

  lemma HeartbeatStaysInTime(cfg: Config, s: State, i: nat, m: Move)
    requires cfg.WellFormed() && Timed(cfg, s)
    requires CanMove(cfg.env, s, i, m) && Punctual(cfg, s, i, m) && Heartbeat(m)
    ensures InTime(cfg, s.now, Run(cfg, s, i, m).client)
  {
    var c := s.clients[i];
    assert InTime(cfg, s.now, c);
    if m.TickFail? || (m.TickLook? && s.bucket.slot.Absent?) {
      FailedTickStaysInTime(cfg, s.now, c);
    } else if m.TickLand? || m.TickEnd? {
      var k, step := cfg.env.laterBudget, cfg.timing.interval;
      assert (k + 1) * step == k * step + step;
    }
  }

  lemma GrantStaysInTime(cfg: Config, s: State, i: nat)
    requires cfg.WellFormed() && Timed(cfg, s) && CanMove(cfg.env, s, i, Grant)
    ensures InTime(cfg, s.now, Run(cfg, s, i, Grant).client)
  {
    assert InTime(cfg, s.now, s.clients[i]);
    var k, step := cfg.env.firstBudget, cfg.timing.interval;
    assert (k + 1) * step == k * step + step;
  }

  // Entering releaseLock, where the timeout of its fresh context starts.
  lemma AbandonStaysInTime(cfg: Config, s: State, i: nat, m: Move)
    requires cfg.WellFormed() && i < |s.clients| && InTime(cfg, s.now, s.clients[i])
    requires CanMove(cfg.env, s, i, m) && Run(cfg, s, i, m).client.phase.Releasing?
    requires s.now + cfg.timing.releaseTimeout <= SafeUntil(cfg, s.clients[i])
    ensures InTime(cfg, s.now, Run(cfg, s, i, m).client)
  {
    var c := s.clients[i];
    var c' := Run(cfg, s, i, m).client;
    assert c'.until == s.now + cfg.timing.releaseTimeout;
    if m.CreateFailed? || m.SwapFailed? {
      assert c.asOf <= c'.asOf <= s.now;
    }
  }

  lemma AcquiringStaysInTime(cfg: Config, s: State, i: nat, m: Move)
    requires cfg.WellFormed() && i < |s.clients| && InTime(cfg, s.now, s.clients[i])
    requires CanMove(cfg.env, s, i, m) && Punctual(cfg, s, i, m)
    requires !Heartbeat(m) && !m.Grant? && !Run(cfg, s, i, m).client.phase.Releasing?
    ensures InTime(cfg, s.now, Run(cfg, s, i, m).client)
  {}

  lemma MoverStaysInTime(cfg: Config, s: State, i: nat, m: Move)
    requires cfg.WellFormed() && LongEnough(cfg) && Timed(cfg, s) && Owners(s)
    requires CanMove(cfg.env, s, i, m) && Punctual(cfg, s, i, m)
    ensures InTime(cfg, s.now, Run(cfg, s, i, m).client)
  {
    var c := s.clients[i];
    assert InTime(cfg, s.now, c);
    if Heartbeat(m) {
      HeartbeatStaysInTime(cfg, s, i, m);
    } else if m.Grant? {
      GrantStaysInTime(cfg, s, i);
    } else if Run(cfg, s, i, m).client.phase.Releasing? {
      ReliesInTime(cfg, s.now, c);
      AbandonStaysInTime(cfg, s, i, m);
    } else {
      AcquiringStaysInTime(cfg, s, i, m);
    }
  }

  lemma MoverKeepsDeadlines(cfg: Config, s: State, i: nat, m: Move)
    requires cfg.WellFormed() && Timed(cfg, s) && Tokens(s)
    requires CanMove(cfg.env, s, i, m) && Punctual(cfg, s, i, m)
    ensures Deadlines(cfg, Next(cfg, s, By(i, m)), Run(cfg, s, i, m).client)
  {
    var c := s.clients[i];
    assert InTime(cfg, s.now, c) && Deadlines(cfg, s, c);
  }

  lemma BystanderKeepsDeadlines(cfg: Config, s: State, i: nat, m: Move, j: nat)
    requires cfg.WellFormed() && Timed(cfg, s) && Tokens(s)
    requires CanMove(cfg.env, s, i, m) && j < |s.clients| && j != i
    ensures Deadlines(cfg, Next(cfg, s, By(i, m)), s.clients[j])
  {
    assert Deadlines(cfg, s, s.clients[j]);
    assert s.clients[i].token != s.clients[j].token;
  }

  lemma StepKeepsTimed(cfg: Config, s: State, k: Step)
    requires cfg.WellFormed() && LongEnough(cfg) && Timed(cfg, s) && Owners(s)
    requires Possible(cfg.env, s, k) && OnTime(cfg, s, k)
    ensures Timed(cfg, Next(cfg, s, k))
  {
    var s' := Next(cfg, s, k);
    forall j: nat | j < |s'.clients| ensures InTime(cfg, s'.now, s'.clients[j]) && Deadlines(cfg, s', s'.clients[j]) {
      assert InTime(cfg, s.now, s.clients[j]) && Deadlines(cfg, s, s.clients[j]);
      match k
      case Advance(to) =>
        assert MayWait(cfg.timing, s.clients[j], to);
      case By(i, m) =>
        if i == j {
          MoverStaysInTime(cfg, s, i, m);
          MoverKeepsDeadlines(cfg, s, i, m);
        } else {
          BystanderKeepsDeadlines(cfg, s, i, m, j);
        }
    }
  }

  lemma {:induction false} RunKeepsTimed(cfg: Config, r: Trace, n: nat)
    requires cfg.WellFormed() && LongEnough(cfg) && !cfg.env.lostDeletes
    requires IsRun(cfg, true, r) && n < |r.states|
    ensures Timed(cfg, r.states[n]) && Owners(r.states[n])
  {
    if n > 0 {
      var mid, k := r.states[n - 1], r.steps[n - 1];
      RunKeepsTimed(cfg, r, n - 1);
      assert Steps(cfg, true, mid, k, r.states[n]);
      TimedExcludesHits(cfg, mid);
      StepKeepsOwners(cfg, mid, k);
      StepKeepsTimed(cfg, mid, k);
    }
  }

  /** Timed mutual exclusion, for any number of clients and every run: at most
      one holder, a client that relies on the key finds its own token there, and
      no heartbeat ever meets a foreign token. */
  lemma AtMostOneHolder(cfg: Config, s: State)
    requires cfg.WellFormed() && LongEnough(cfg) && !cfg.env.lostDeletes
    requires Reachable(cfg, true, s)
    ensures MutualExclusion(s)
    ensures forall i: nat :: i < |s.clients| && Relies(s.clients[i].phase) ==> s.bucket.Owned(s.clients[i].token)
    ensures forall i: nat :: i < |s.clients| ==> !s.clients[i].phase.Doomed? && !s.clients[i].phase.Lost?
  {
    var r :| IsRun(cfg, true, r) && r.states[|r.steps|] == s;
    RunKeepsTimed(cfg, r, |r.steps|);
    OwnersExclude(s);
  }
}
