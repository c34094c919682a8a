/**
 A crashed holder does not block the lock for good: its object expires, and then an
 acquirer that is left alone takes the lock over, no later than the lifetime and the
 skew of the clocks allow.
 */
module LockProgress {
  import opened LockProtocol
  import opened LockTight

  // A clock reading about to become a deadline is not ahead by more than the skew.
  predicate ReadOk(cfg: Config, now: int, p: Phase) {
    match p
    case Creating(stamp) => stamp.read <= now + cfg.env.skew
    case Swapping(_, stamp) => stamp.read <= now + cfg.env.skew
    case Refreshing(stamp, _) => stamp.read <= now + cfg.env.skew
    case _ => true
  }

  // No deadline is further off than a lifetime and the skew.
  ghost predicate Bounded(cfg: Config, s: State) {
    && (s.bucket.slot.Object? ==> s.bucket.slot.deadline <= s.now + cfg.env.skew + cfg.timing.ttl)
    && forall i: nat {:trigger s.clients[i]} :: i < |s.clients| ==> ReadOk(cfg, s.now, s.clients[i].phase)
  }

  lemma MoveKeepsBounded(cfg: Config, s: State, i: nat, m: Move)
    requires cfg.WellFormed() && Bounded(cfg, s) && CanMove(cfg.env, s, i, m) && Punctual(cfg, s, i, m)
    ensures Bounded(cfg, Next(cfg, s, By(i, m)))
  {
    assert ReadOk(cfg, s.now, s.clients[i].phase);
    var e := Run(cfg, s, i, m);
    assert ReadOk(cfg, s.now, e.client.phase);
    assert e.bucket.slot.Object? ==> e.bucket.slot.deadline <= s.now + cfg.env.skew + cfg.timing.ttl;
  }

  lemma {:induction false} RunKeepsBounded(cfg: Config, r: Trace, n: nat)
    requires cfg.WellFormed() && IsRun(cfg, true, r) && n < |r.states|
    ensures Bounded(cfg, r.states[n])
  {
    if n > 0 {
      RunKeepsBounded(cfg, r, n - 1);
      var s, k := r.states[n - 1], r.steps[n - 1];
      assert Steps(cfg, true, s, k, r.states[n]);
      if k.By? { MoveKeepsBounded(cfg, s, k.who, k.move); }
    }
  }

  // Clients that take no part: idle, or crashed wherever they were.
  ghost predicate Quiet(s: State) {
    forall i: nat {:trigger s.clients[i]} :: i < |s.clients| ==> s.clients[i].phase.Idle? || s.clients[i].phase.Crashed?
  }

  /** From every timed state in which all clients are idle or have crashed, holder
      included, an idle client can come to hold the lock, by its own steps alone and
      without any clock being wrong, at most one lifetime and the skew later. */
  lemma CrashedHolderIsReclaimed(cfg: Config, s: State, i: nat) returns (s': State)
    requires cfg.WellFormed() && Reachable(cfg, true, s) && Quiet(s)
    requires i < |s.clients| && s.clients[i].phase.Idle?
    ensures Reachable(cfg, true, s') && Only(s, s', i) && s'.clients[i].phase.Holding?
    ensures s'.bucket.Owned(s'.clients[i].token)
    ensures s.now <= s'.now <= s.now + cfg.timing.ttl + cfg.env.skew + 1
  {
    if s.bucket.slot.Absent? {
      s' := CreateAndHold(cfg, s, i, s.now);
    } else {
      var r :| IsRun(cfg, true, r) && r.states[|r.steps|] == s;
      RunKeepsBounded(cfg, r, |r.steps|);
      s' := Wait(cfg, s, s.now + cfg.timing.ttl + cfg.env.skew + 1);
      s' := Reclaim(cfg, s', i, s'.now);
    }
  }
}
