/**
 The condition of timed mutual exclusion is exact: where the lifetime is one
 nanosecond short of it, or a DELETE may land twice, three clients reach a
 state with two holders. Applied to the shipped constants.
 */
module LockTight {
  import opened LockProtocol
  import opened LockUntimed
  import opened LockTimed

  // ------------------------------------------------------- building runs

  lemma Extend(cfg: Config, s: State, k: Step) returns (s': State)
    requires Reachable(cfg, true, s) && Possible(cfg.env, s, k) && OnTime(cfg, s, k)
    ensures s' == Next(cfg, s, k) && Reachable(cfg, true, s')
  {
    var r :| IsRun(cfg, true, r) && r.states[|r.steps|] == s;
    s' := Next(cfg, s, k);
    var r' := Trace(r.states + [s'], r.steps + [k]);
    assert forall n: nat :: n < |r.steps| ==> r'.steps[n] == r.steps[n];
    assert Steps(cfg, true, s, k, s');
    assert IsRun(cfg, true, r') && r'.states[|r'.steps|] == s';
  }

  // `s'` is `s` after moves of client i alone.
  ghost predicate Only(s: State, s': State, i: nat) {
    |s'.clients| == |s.clients| && forall j: nat :: j < |s.clients| && j != i ==> s'.clients[j] == s.clients[j]
  }

  lemma Do(cfg: Config, s: State, i: nat, m: Move) returns (s': State)
    requires Reachable(cfg, true, s) && CanMove(cfg.env, s, i, m) && Punctual(cfg, s, i, m)
    ensures Reachable(cfg, true, s') && Only(s, s', i) && s'.now == s.now
    ensures s'.clients[i] == Run(cfg, s, i, m).client && s'.bucket == Run(cfg, s, i, m).bucket
  {
    s' := Extend(cfg, s, By(i, m));
  }

  lemma Wait(cfg: Config, s: State, to: int) returns (s': State)
    requires Reachable(cfg, true, s) && s.now <= to
    requires forall i: nat :: i < |s.clients| ==> MayWait(cfg.timing, s.clients[i], to)
    ensures s' == s.(now := to) && Reachable(cfg, true, s')
  {
    s' := Extend(cfg, s, Advance(to));
  }

  lemma ThreeIdle(cfg: Config, now: int) returns (s: State)
    ensures Reachable(cfg, true, s) && s.now == now && s.bucket.slot.Absent? && |s.clients| == 3
    ensures s.clients[0].phase.Idle? && s.clients[1].phase.Idle? && s.clients[2].phase.Idle?
  {
    var clients := seq(3, (i: nat) => Client(Idle, i, now, now, now, 0, false, now));
    s := State(now, Bucket(Absent, 0), clients, 3, []);
    var r := Trace([s], []);
    assert IsRun(cfg, true, r) && r.states[|r.steps|] == s;
  }

  // An idle client creates the absent lock object and sees its token there.
  lemma Create(cfg: Config, s: State, i: nat, clock: int) returns (s': State)
    requires Reachable(cfg, true, s) && i < |s.clients| && s.clients[i].phase.Idle?
    requires s.bucket.slot.Absent? && Near(cfg.env, s.now, clock)
    ensures Reachable(cfg, true, s') && Only(s, s', i) && s'.now == s.now
    ensures s'.clients[i].phase.Confirmed? && s'.clients[i].began == s.now
    ensures s'.bucket.Owned(s'.clients[i].token) && s'.bucket.slot.deadline == Recorded(clock + cfg.timing.ttl)
  {
    s' := Do(cfg, s, i, Begin);
    s' := Do(cfg, s', i, StartAttempt(clock));
    s' := Do(cfg, s', i, CreateStored);
    s' := Do(cfg, s', i, Verify);
  }

  lemma CreateAndHold(cfg: Config, s: State, i: nat, clock: int) returns (s': State)
    requires Reachable(cfg, true, s) && i < |s.clients| && s.clients[i].phase.Idle?
    requires s.bucket.slot.Absent? && Near(cfg.env, s.now, clock)
    ensures Reachable(cfg, true, s') && Only(s, s', i) && s'.now == s.now
    ensures s'.clients[i].phase.Holding? && s'.clients[i].tickAt == s.now + cfg.timing.interval
    ensures s'.bucket.Owned(s'.clients[i].token)
  {
    s' := Create(cfg, s, i, clock);
    s' := Do(cfg, s', i, Grant);
  }

  // An idle client finds an object it reads as expired and aims a swap at it.
  lemma Aim(cfg: Config, s: State, i: nat, clock: int) returns (s': State)
    requires Reachable(cfg, true, s) && i < |s.clients| && s.clients[i].phase.Idle?
    requires s.bucket.slot.Object? && Near(cfg.env, s.now, clock) && Expired(clock, s.bucket.slot)
    ensures Reachable(cfg, true, s') && Only(s, s', i) && s'.now == s.now && s'.bucket == s.bucket
    ensures s'.clients[i].phase.Swapping? && s'.clients[i].phase.etag == s.bucket.slot.etag
  {
    s' := Do(cfg, s, i, Begin);
    s' := Do(cfg, s', i, StartAttempt(clock));
    s' := Do(cfg, s', i, CreateRefused);
    s' := Do(cfg, s', i, Look);
    s' := Do(cfg, s', i, Judge(clock, clock));
  }

  // An idle client reclaims the object of whoever let it expire.
  lemma Reclaim(cfg: Config, s: State, i: nat, clock: int) returns (s': State)
    requires Reachable(cfg, true, s) && i < |s.clients| && s.clients[i].phase.Idle?
    requires s.bucket.slot.Object? && Near(cfg.env, s.now, clock) && Expired(clock, s.bucket.slot)
    ensures Reachable(cfg, true, s') && Only(s, s', i) && s'.now == s.now
    ensures s'.clients[i].phase.Holding? && s'.bucket.Owned(s'.clients[i].token)
  {
    s' := Aim(cfg, s, i, clock);
    s' := Do(cfg, s', i, SwapStored);
    s' := Do(cfg, s', i, Verify);
    s' := Do(cfg, s', i, Grant);
  }

  // Client 0 acts alone: it holds the lock and the others are idle.
  ghost predicate Alone(s: State) {
    && |s.clients| == 3
    && s.bucket.Owned(s.clients[0].token)
    && s.clients[1].phase.Idle? && s.clients[2].phase.Idle?
  }

  ghost predicate AloneHolding(s: State) {
    Alone(s) && s.clients[0].phase.Holding? && s.now <= s.clients[0].tickAt
  }

  // The holder's heartbeat spends its whole failure budget.
  lemma {:induction false} FailTicks(cfg: Config, s: State, n: nat) returns (s': State)
    requires cfg.WellFormed() && Reachable(cfg, true, s) && AloneHolding(s) && s.clients[0].left == n
    ensures Reachable(cfg, true, s') && AloneHolding(s') && s'.bucket == s.bucket
    ensures s'.now == s'.clients[0].tickAt == s.clients[0].tickAt + n * cfg.timing.interval
    decreases n
  {
    var step := cfg.timing.interval;
    s' := Wait(cfg, s, s.clients[0].tickAt);
    if n > 0 {
      s' := Do(cfg, s', 0, TickBegin);
      s' := Do(cfg, s', 0, TickFail);
      s' := FailTicks(cfg, s', n - 1);
      assert step + (n - 1) * step == n * step;
    }
  }

  // One more tick stalls for its whole timeout before the release is asked for.
  lemma StallInTick(cfg: Config, s: State) returns (s': State)
    requires cfg.WellFormed() && Reachable(cfg, true, s) && AloneHolding(s) && s.now == s.clients[0].tickAt
    ensures Reachable(cfg, true, s') && Alone(s') && s'.bucket == s.bucket
    ensures s'.clients[0].phase.Checking? && s'.now == s.now + cfg.timing.opTimeout
  {
    s' := Do(cfg, s, 0, TickBegin);
    s' := Wait(cfg, s', s.now + cfg.timing.opTimeout);
  }

  // The release then stalls between its HEAD and its DELETE for all of the
  // release timeout.
  lemma StallInRelease(cfg: Config, s: State) returns (s': State)
    requires cfg.WellFormed() && Reachable(cfg, true, s) && AloneHolding(s) && s.now == s.clients[0].tickAt
    ensures Reachable(cfg, true, s') && Alone(s') && s'.bucket == s.bucket
    ensures s'.clients[0].phase.Deleting?
    ensures s'.now == s.now + cfg.timing.opTimeout + cfg.timing.releaseTimeout
  {
    s' := StallInTick(cfg, s);
    s' := Do(cfg, s', 0, Release);
    s' := Do(cfg, s', 0, ReleaseLook);
    s' := Wait(cfg, s', s'.clients[0].until);
  }

  // The stalled DELETE removes the reclaimer's object, so a third client
  // creates its own beside it.
  lemma DeleteUnderReclaimer(cfg: Config, s: State) returns (s': State)
    requires cfg.WellFormed() && Reachable(cfg, true, s) && Alone(s) && s.clients[0].phase.Deleting?
    requires s.now + cfg.env.skew > s.bucket.slot.deadline
    ensures Reachable(cfg, true, s') && !MutualExclusion(s')
  {
    s' := Reclaim(cfg, s, 1, s.now + cfg.env.skew);
    s' := Do(cfg, s', 0, DeleteLand(false));
    s' := CreateAndHold(cfg, s', 2, s'.now);
    assert s'.clients[1].phase.Holder() && s'.clients[2].phase.Holder();
  }

  // -------------------------------------------------- the three bad runs

  // A client waits for the whole ceiling on a deadline computed at the start,
  // then loses as many first heartbeats as the budget allows.
  lemma FirstStretchTooLong(cfg: Config) returns (s: State)
    requires cfg.WellFormed() && FirstStretch(cfg) + Margin(cfg) > cfg.timing.ttl
    ensures Reachable(cfg, true, s) && !MutualExclusion(s)
  {
    var t, env := cfg.timing, cfg.env;
    var start := env.skew - t.ttl + SECOND - 1;
    s := ThreeIdle(cfg, start);
    s := Create(cfg, s, 0, start - env.skew);
    assert s.bucket.slot.deadline == 0;
    s := Wait(cfg, s, start + t.waitCeiling);
    s := Do(cfg, s, 0, Grant);
    var k, step := env.firstBudget, t.interval;
    assert (k + 1) * step == step + k * step;
    s := FailTicks(cfg, s, k);
    s := StallInRelease(cfg, s);
    s := DeleteUnderReclaimer(cfg, s);
  }

  // A client's first heartbeat lands, then it loses as many as the budget allows.
  lemma LaterStretchTooLong(cfg: Config) returns (s: State)
    requires cfg.WellFormed() && LaterStretch(cfg) + Margin(cfg) > cfg.timing.ttl
    ensures Reachable(cfg, true, s) && !MutualExclusion(s)
  {
    var t, env := cfg.timing, cfg.env;
    var beat := env.skew - t.ttl + SECOND - 1;
    s := ThreeIdle(cfg, beat - t.interval);
    s := CreateAndHold(cfg, s, 0, s.now);
    s := Wait(cfg, s, beat);
    s := Do(cfg, s, 0, TickBegin);
    s := Do(cfg, s, 0, TickLook);
    s := Do(cfg, s, 0, TickStamp(beat - env.skew));
    s := Do(cfg, s, 0, TickLand);
    assert s.bucket.slot.deadline == 0;
    s := Do(cfg, s, 0, TickEnd);
    var k, step := env.laterBudget, t.interval;
    assert (k + 1) * step == step + k * step;
    s := FailTicks(cfg, s, k);
    s := StallInRelease(cfg, s);
    s := DeleteUnderReclaimer(cfg, s);
  }

  lemma DeleteWithoutReply(cfg: Config) returns (s: State)
    requires cfg.WellFormed() && cfg.env.lostDeletes
    ensures Reachable(cfg, true, s) && s.now == 0 && |s.clients| == 3 && s.bucket.slot.Absent?
    ensures s.clients[0].phase.Deleting? && s.clients[1].phase.Idle? && s.clients[2].phase.Idle?
  {
    s := ThreeIdle(cfg, 0);
    s := CreateAndHold(cfg, s, 0, 0);
    s := Do(cfg, s, 0, Release);
    s := Do(cfg, s, 0, ReleaseLook);
    s := Do(cfg, s, 0, DeleteLand(true));
  }

  // A DELETE whose reply is lost is sent again and removes the next holder's object.
  lemma DeleteLandsTwice(cfg: Config) returns (s: State)
    requires cfg.WellFormed() && cfg.env.lostDeletes
    ensures Reachable(cfg, true, s) && !MutualExclusion(s)
  {
    s := DeleteWithoutReply(cfg);
    s := CreateAndHold(cfg, s, 1, 0);
    s := Do(cfg, s, 0, DeleteLand(false));
    s := CreateAndHold(cfg, s, 2, 0);
    assert s.clients[1].phase.Holder() && s.clients[2].phase.Holder();
  }

  /** Mutual exclusion holds in every timed run, for any number of clients,
      exactly when the lifetime covers both stretches to the nanosecond and no
      DELETE is sent again after it landed. */
  lemma MutualExclusionIffLongEnough(cfg: Config)
    requires cfg.WellFormed()
    ensures (forall s: State :: Reachable(cfg, true, s) ==> MutualExclusion(s)) <==>
            LongEnough(cfg) && !cfg.env.lostDeletes
  {
    if LongEnough(cfg) && !cfg.env.lostDeletes {
      forall s: State | Reachable(cfg, true, s) ensures MutualExclusion(s) {
        AtMostOneHolder(cfg, s);
      }
    } else {
      var bad: State;
      if cfg.env.lostDeletes {
        bad := DeleteLandsTwice(cfg);
      } else if FirstStretch(cfg) + Margin(cfg) > cfg.timing.ttl {
        bad := FirstStretchTooLong(cfg);
      } else {
        bad := LaterStretchTooLong(cfg);
      }
      assert Reachable(cfg, true, bad) && !MutualExclusion(bad);
    }
  }

  // lockTTL, heartbeatInterval, heartbeatOpTimeout, lockReleaseTimeout and
  // lockWaitCeiling as shipped.
  const SHIPPED := Timing(600 * SECOND, 180 * SECOND, 30 * SECOND, 30 * SECOND, 300 * SECOND)

  /** The shipped constants are safe exactly when the first heartbeat lands, at
      most one later heartbeat in a row fails, clocks agree to within just over
      29.5 seconds and no DELETE lands twice. */
  lemma ShippedConstants(env: Env)
    requires env.WellFormed()
    ensures (forall s: State :: Reachable(Config(SHIPPED, env), true, s) ==> MutualExclusion(s)) <==>
            env.firstBudget == 0 && env.laterBudget <= 1 && 2 * env.skew <= 59 * SECOND + 1 && !env.lostDeletes
  {
    var cfg := Config(SHIPPED, env);
    MutualExclusionIffLongEnough(cfg);
    var step := SHIPPED.interval;
    assert FirstStretch(cfg) == 360 * SECOND + (env.firstBudget + 1) * step;
    assert LaterStretch(cfg) == 60 * SECOND + (env.laterBudget + 1) * step;
  }
}
