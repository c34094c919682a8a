/**
 What the lock's conditional writes give in every interleaving, with no
 assumption on clocks: each version of the key is consumed at most once, an
 existing object is only taken over on the taker's own reading of it as
 expired, and without such a reading there is never a second holder.
 */
module LockUntimed {
  import opened LockProtocol

  // A HEAD by `who` saw exactly `seen` and `who` then read it as expired.
  ghost predicate SawExpired(log: seq<Event>, who: nat, seen: Slot) {
    seen.Object? &&
    exists i: nat :: i < |log| && log[i].ReadExpired? && log[i].who == who && log[i].seen == seen &&
                     Expired(log[i].clock, seen)
  }

  ghost predicate HasTaken(log: seq<Event>, who: nat) {
    exists i: nat :: i < |log| && log[i].Took? && log[i].who == who
  }

  ghost predicate HasGrant(log: seq<Event>, who: nat) {
    exists i: nat :: i < |log| && log[i].Granted? && log[i].who == who
  }

  // Every successful conditional PUT consumed a version newer than all before
  // it, and one over an existing object followed the taker's own reading.
  ghost predicate CompareAndSwap(log: seq<Event>) {
    && (forall i: nat, j: nat :: i < j < |log| && log[i].Took? && log[j].Took? ==> log[i].version < log[j].version)
    && (forall j: nat :: j < |log| && log[j].Took? && log[j].over.Object? ==>
          log[j].over.etag == log[j].version && SawExpired(log[..j], log[j].who, log[j].over))
    && (forall j: nat :: j < |log| && log[j].Granted? ==>
          log[j].seen.Object? && log[j].seen.token == log[j].who && HasTaken(log[..j], log[j].who))
  }

  ghost predicate PhaseHistory(s: State, c: Client) {
    && (c.phase.Judging? ==>
          c.phase.seen.Object? && c.phase.seen.etag <= s.bucket.writes &&
          (s.bucket.slot.Object? && s.bucket.slot.etag == c.phase.seen.etag ==> s.bucket.slot == c.phase.seen))
    && (c.phase.Swapping? ==>
          c.phase.etag <= s.bucket.writes &&
          exists seen: Slot :: SawExpired(s.log, c.token, seen) && seen.etag == c.phase.etag &&
            (s.bucket.slot.Object? && s.bucket.slot.etag == c.phase.etag ==> s.bucket.slot == seen))
    && (c.phase.Claiming? ==> HasTaken(s.log, c.token))
    && (c.phase.Confirmed? || c.phase.Holder() ==> HasGrant(s.log, c.token))
  }

  ghost predicate History(s: State) {
    && (s.bucket.slot.Object? ==> s.bucket.slot.etag == s.bucket.writes)
    && (forall j: nat :: j < |s.log| && s.log[j].Took? ==> s.log[j].version < s.bucket.writes)
    && CompareAndSwap(s.log)
    && (forall i: nat :: i < |s.clients| ==> PhaseHistory(s, s.clients[i]))
  }

  lemma LogGrows(log: seq<Event>, more: seq<Event>, who: nat, seen: Slot)
    ensures SawExpired(log, who, seen) ==> SawExpired(log + more, who, seen)
    ensures HasTaken(log, who) ==> HasTaken(log + more, who)
    ensures HasGrant(log, who) ==> HasGrant(log + more, who)
  {
    if SawExpired(log, who, seen) {
      var i: nat :|
        i < |log| && log[i].ReadExpired? && log[i].who == who && log[i].seen == seen && Expired(log[i].clock, seen);
      assert (log + more)[i] == log[i];
    }
    if HasTaken(log, who) {
      var i: nat :| i < |log| && log[i].Took? && log[i].who == who;
      assert (log + more)[i] == log[i];
    }
    if HasGrant(log, who) {
      var i: nat :| i < |log| && log[i].Granted? && log[i].who == who;
      assert (log + more)[i] == log[i];
    }
  }

  // The history stays well formed when one justified event is appended.
  lemma AppendKeepsLog(log: seq<Event>, e: Event)
    requires CompareAndSwap(log)
    requires e.Took? ==> forall i: nat :: i < |log| && log[i].Took? ==> log[i].version < e.version
    requires e.Took? && e.over.Object? ==> e.over.etag == e.version && SawExpired(log, e.who, e.over)
    requires e.Granted? ==> e.seen.Object? && e.seen.token == e.who && HasTaken(log, e.who)
    ensures CompareAndSwap(log + [e])
  {
    var l := log + [e];
    assert l[..|log|] == log;
    assert forall j: nat :: j < |log| ==> l[..j] == log[..j] && l[j] == log[j];
  }

  // A client that did not move keeps its history, whatever was appended and
  // however the bucket moved on.
  lemma BystanderKeepsHistory(s: State, s': State, c: Client)
    requires PhaseHistory(s, c)
    requires s.log <= s'.log
    requires s'.bucket == s.bucket || (s'.bucket.writes > s.bucket.writes &&
                                       (s'.bucket.slot.Object? ==> s'.bucket.slot.etag == s'.bucket.writes))
    ensures PhaseHistory(s', c)
  {
    var more := s'.log[|s.log|..];
    assert s'.log == s.log + more;
    LogGrows(s.log, more, c.token, Absent);
    if c.phase.Swapping? {
      var seen :| SawExpired(s.log, c.token, seen) && seen.etag == c.phase.etag &&
        (s.bucket.slot.Object? && s.bucket.slot.etag == c.phase.etag ==> s.bucket.slot == seen);
      LogGrows(s.log, more, c.token, seen);
      assert SawExpired(s'.log, c.token, seen);
    }
  }

  // A swap only hits the object its client read as expired.
  lemma SwapHitsWhatWasRead(s: State, c: Client)
    requires PhaseHistory(s, c) && c.phase.Swapping?
    requires s.bucket.slot.Object? && s.bucket.slot.etag == c.phase.etag
    ensures SawExpired(s.log, c.token, s.bucket.slot)
  {
    var seen :| SawExpired(s.log, c.token, seen) && seen.etag == c.phase.etag &&
      (s.bucket.slot.Object? && s.bucket.slot.etag == c.phase.etag ==> s.bucket.slot == seen);
  }

  // A move that records nothing keeps its client's history.
  lemma SilentMoverKeepsHistory(cfg: Config, s: State, i: nat, m: Move)
    requires History(s) && CanMove(cfg.env, s, i, m) && Run(cfg, s, i, m).events == []
    ensures PhaseHistory(Next(cfg, s, By(i, m)), Run(cfg, s, i, m).client)
  {
    assert PhaseHistory(s, s.clients[i]);
    assert Next(cfg, s, By(i, m)).log == s.log;
  }

  lemma MoverKeepsHistory(cfg: Config, s: State, i: nat, m: Move)
    requires History(s) && CanMove(cfg.env, s, i, m)
    ensures CompareAndSwap(Next(cfg, s, By(i, m)).log)
    ensures PhaseHistory(Next(cfg, s, By(i, m)), Run(cfg, s, i, m).client)
  {
    var c := s.clients[i];
    assert PhaseHistory(s, c);
    var s' := Next(cfg, s, By(i, m));
    var e := Run(cfg, s, i, m);
    if e.events == [] {
      SilentMoverKeepsHistory(cfg, s, i, m);
      assert s'.log == s.log;
    } else {
      if e.events[0].Took? && c.phase.Swapping? { SwapHitsWhatWasRead(s, c); }
      AppendKeepsLog(s.log, e.events[0]);
      assert e.events == [e.events[0]];
      LogGrows(s.log, e.events, c.token, Absent);
      assert s'.log[|s.log|] == e.events[0];
      if m.Judge? {
        assert SawExpired(s'.log, c.token, c.phase.seen);
      }
    }
  }

  lemma StepKeepsHistory(cfg: Config, s: State, k: Step)
    requires History(s) && Possible(cfg.env, s, k)
    ensures History(Next(cfg, s, k))
  {
    var s' := Next(cfg, s, k);
    if k.By? {
      MoverKeepsHistory(cfg, s, k.who, k.move);
      forall j: nat | j < |s'.clients| ensures PhaseHistory(s', s'.clients[j]) {
        if j != k.who { BystanderKeepsHistory(s, s', s.clients[j]); }
      }
      assert forall j: nat :: j < |s.log| ==> s'.log[j] == s.log[j];
    } else {
      forall j: nat | j < |s'.clients| ensures PhaseHistory(s', s'.clients[j]) {
        BystanderKeepsHistory(s, s', s.clients[j]);
      }
    }
  }

  lemma {:induction false} RunKeepsHistory(cfg: Config, timed: bool, r: Trace, n: nat)
    requires IsRun(cfg, timed, r) && n < |r.states|
    ensures History(r.states[n])
  {
    if n > 0 {
      RunKeepsHistory(cfg, timed, r, n - 1);
      assert Steps(cfg, timed, r.states[n - 1], r.steps[n - 1], r.states[n]);
      StepKeepsHistory(cfg, r.states[n - 1], r.steps[n - 1]);
    }
  }

  /** In every interleaving, with no clock assumption: no version of the key is
      consumed by two successful conditional PUTs, a takeover follows the taker's
      own reading of exactly the replaced object as expired, and every holder
      once saw its own token after a PUT of its own. */
  lemma EachVersionTakenOnce(cfg: Config, s: State)
    requires Reachable(cfg, false, s)
    ensures forall i: nat, j: nat | i < |s.log| && j < |s.log| && s.log[i].Took? && s.log[j].Took? ::
              s.log[i].version == s.log[j].version ==> i == j
    ensures forall j: nat :: j < |s.log| && s.log[j].Took? && s.log[j].over.Object? ==>
              SawExpired(s.log[..j], s.log[j].who, s.log[j].over)
    ensures forall i: nat :: i < |s.clients| && s.clients[i].phase.Holder() ==>
              exists j: nat :: j < |s.log| && s.log[j].Granted? && s.log[j].who == s.clients[i].token &&
                s.log[j].seen.Object? && s.log[j].seen.token == s.log[j].who && HasTaken(s.log[..j], s.log[j].who)
  {
    var r :| IsRun(cfg, false, r) && r.states[|r.steps|] == s;
    RunKeepsHistory(cfg, false, r, |r.steps|);
    forall i: nat, j: nat | i < |s.log| && j < |s.log| && s.log[i].Took? && s.log[j].Took? &&
        s.log[i].version == s.log[j].version
      ensures i == j
    {
      assert !(i < j) && !(j < i);
    }
    forall i: nat | i < |s.clients| && s.clients[i].phase.Holder()
      ensures exists j: nat :: j < |s.log| && s.log[j].Granted? && s.log[j].who == s.clients[i].token &&
                s.log[j].seen.Object? && s.log[j].seen.token == s.log[j].who && HasTaken(s.log[..j], s.log[j].who)
    {
      assert PhaseHistory(s, s.clients[i]);
      var j: nat :| j < |s.log| && s.log[j].Granted? && s.log[j].who == s.clients[i].token;
    }
  }

  // ---------------------------------------------------------------------
  // Ownership: as long as no If-Match PUT can hit the object of a client
  // that relies on it, that object stays.

  // The client acts on having seen its own token on the key.
  predicate Relies(p: Phase) {
    p.Confirmed? || p.Holding? || p.Checking? || p.Approved? || p.Refreshing? || p.Deleting?
  }

  ghost predicate Tokens(s: State) {
    && (forall i: nat :: i < |s.clients| ==> s.clients[i].token < s.tokens)
    && (forall i: nat, j: nat ::
          i < |s.clients| && j < |s.clients| && s.clients[i].token == s.clients[j].token ==> i == j)
    && (s.bucket.slot.Object? ==> s.bucket.slot.token < s.tokens)
  }

  ghost predicate Owners(s: State) {
    && Tokens(s)
    && (forall i: nat :: i < |s.clients| ==>
          (Relies(s.clients[i].phase) ==> s.bucket.Owned(s.clients[i].token)) &&
          !s.clients[i].phase.Doomed? && !s.clients[i].phase.Lost?)
  }

  // No swap in flight would replace an object some client relies on.
  ghost predicate NoSwapHitsOwner(s: State) {
    forall i: nat, j: nat | i < |s.clients| && j < |s.clients| && Relies(s.clients[i].phase) &&
                            s.clients[j].phase.Swapping? && s.bucket.Owned(s.clients[i].token) ::
      s.bucket.slot.etag != s.clients[j].phase.etag
  }

  lemma StepKeepsOwners(cfg: Config, s: State, k: Step)
    requires Owners(s) && NoSwapHitsOwner(s) && Possible(cfg.env, s, k)
    requires !cfg.env.lostDeletes
    ensures Owners(Next(cfg, s, k))
  {
    if k.By? {
      var i, m := k.who, k.move;
      var s' := Next(cfg, s, k);
      var e := Run(cfg, s, i, m);
      forall j: nat | j < |s'.clients|
        ensures Relies(s'.clients[j].phase) ==> s'.bucket.Owned(s'.clients[j].token)
        ensures !s'.clients[j].phase.Doomed? && !s'.clients[j].phase.Lost?
      {
        if j != i && Relies(s.clients[j].phase) {
          assert s.bucket.Owned(s.clients[j].token);
          assert s.clients[i].token != s.clients[j].token;
          assert !Relies(s.clients[i].phase) by {
            assert Relies(s.clients[i].phase) ==> s.bucket.Owned(s.clients[i].token);
          }
          assert e.bucket == s.bucket;
        }
      }
    }
  }

  lemma OwnersExclude(s: State)
    requires Owners(s)
    ensures MutualExclusion(s)
  {
    forall i: nat, j: nat |
      i < |s.clients| && j < |s.clients| && s.clients[i].phase.Holder() && s.clients[j].phase.Holder()
      ensures i == j
    {
      assert Relies(s.clients[i].phase) && Relies(s.clients[j].phase);
    }
  }

  ghost predicate NeverReadExpired(log: seq<Event>) {
    forall j: nat :: j < |log| ==> !log[j].ReadExpired?
  }

  lemma {:induction false} RunWithoutExpiryKeepsOwners(cfg: Config, timed: bool, r: Trace, n: nat)
    requires IsRun(cfg, timed, r) && n < |r.states|
    requires !cfg.env.lostDeletes && NeverReadExpired(r.states[n].log)
    ensures Owners(r.states[n])
  {
    if n > 0 {
      var mid, k := r.states[n - 1], r.steps[n - 1];
      assert Steps(cfg, timed, mid, k, r.states[n]);
      assert NeverReadExpired(mid.log) by {
        assert forall j: nat :: j < |mid.log| ==> r.states[n].log[j] == mid.log[j];
      }
      RunWithoutExpiryKeepsOwners(cfg, timed, r, n - 1);
      RunKeepsHistory(cfg, timed, r, n - 1);
      assert forall i: nat :: i < |mid.clients| ==>
           PhaseHistory(mid, mid.clients[i]) && !mid.clients[i].phase.Swapping?;
      StepKeepsOwners(cfg, mid, k);
    }
  }

  /** With no clock assumption at all, two clients hold the lock at once only
      after some client read a live deadline as expired, provided no DELETE is
      sent again after it landed. */
  lemma SecondHolderNeedsAnExpiry(cfg: Config, s: State)
    requires Reachable(cfg, false, s) && !cfg.env.lostDeletes && NeverReadExpired(s.log)
    ensures MutualExclusion(s)
  {
    var r :| IsRun(cfg, false, r) && r.states[|r.steps|] == s;
    RunWithoutExpiryKeepsOwners(cfg, false, r, |r.steps|);
    OwnersExclude(s);
  }

  // ---------------------------------------------------------------------
  // Whose object it is: nobody leaves one behind but by a crash or a release
  // that failed.

  // The client may still have an object: it wrote one and did not part with it.
  predicate MayOwn(p: Phase) {
    || p.Claiming? || p.Confirmed? || p.Holding? || p.Checking? || p.Approved? || p.Refreshing?
    || p.Releasing? || p.Deleting? || p.Crashed?
  }

  ghost predicate OwnedBy(s: State, i: nat) {
    i < |s.clients| && MayOwn(s.clients[i].phase) && s.bucket.Owned(s.clients[i].token)
  }

  ghost predicate NoOrphan(s: State) {
    Tokens(s) && (s.bucket.slot.Object? ==> exists i: nat :: OwnedBy(s, i))
  }

  lemma StepKeepsTokens(cfg: Config, s: State, k: Step)
    requires Tokens(s) && Possible(cfg.env, s, k)
    ensures Tokens(Next(cfg, s, k))
  {
    if k.By? {
      var s' := Next(cfg, s, k);
      assert forall j: nat :: j < |s.clients| && j != k.who ==> s'.clients[j] == s.clients[j];
    }
  }

  // The mover's own object, if the key has one afterwards.
  lemma MoverKeepsNoOrphan(cfg: Config, s: State, i: nat, m: Move, owner: nat)
    requires Tokens(s) && CanMove(cfg.env, s, i, m) && !m.ReleaseFailed?
    requires s.bucket.slot.Object? ==> OwnedBy(s, owner)
    ensures var s' := Next(cfg, s, By(i, m));
            s'.bucket.slot.Object? ==> OwnedBy(s', i) || OwnedBy(s', owner)
  {
    var s' := Next(cfg, s, By(i, m));
    var e := Run(cfg, s, i, m);
    assert s'.clients[i] == e.client;
    if e.bucket == s.bucket && s.bucket.slot.Object? {
      if i != owner {
        assert s'.clients[owner] == s.clients[owner];
      } else {
        assert s.bucket.Owned(s.clients[i].token);
      }
    }
  }

  lemma {:induction false} RunKeepsNoOrphan(cfg: Config, timed: bool, r: Trace, n: nat)
    requires IsRun(cfg, timed, r) && n < |r.states| && NoReleaseFails(r)
    ensures NoOrphan(r.states[n])
  {
    if n > 0 {
      RunKeepsNoOrphan(cfg, timed, r, n - 1);
      var s, k := r.states[n - 1], r.steps[n - 1];
      assert Steps(cfg, timed, s, k, r.states[n]);
      StepKeepsTokens(cfg, s, k);
      var owner: nat := if i: nat :| OwnedBy(s, i) then i else 0;
      if k.By? {
        MoverKeepsNoOrphan(cfg, s, k.who, k.move, owner);
      } else if s.bucket.slot.Object? {
        assert OwnedBy(r.states[n], owner);
      }
    }
  }

  ghost predicate NoReleaseFails(r: Trace) {
    forall n: nat :: n < |r.steps| && r.steps[n].By? ==> !r.steps[n].move.ReleaseFailed?
  }

  /** In every interleaving, with no clock assumption: an object on the key is the one
      of a client that stored it and is still acquiring, holding or releasing, or has
      crashed. An acquisition that fails, a loss and a release leave none behind, unless
      the release itself fails. */
  lemma NothingLeftBehind(cfg: Config, r: Trace, n: nat)
    requires IsRun(cfg, false, r) && n < |r.states| && NoReleaseFails(r)
    ensures var s := r.states[n];
            && (s.bucket.slot.Object? ==>
                  exists i: nat :: i < |s.clients| && s.bucket.Owned(s.clients[i].token) && MayOwn(s.clients[i].phase))
            && (forall i: nat :: i < |s.clients| && s.clients[i].phase.Idle? ==> !s.bucket.Owned(s.clients[i].token))
  {
    RunKeepsNoOrphan(cfg, false, r, n);
    var s := r.states[n];
    if s.bucket.slot.Object? {
      var owner: nat :| OwnedBy(s, owner);
    }
  }

  /** What ends an acquisition: its ceiling, a failed call, a crash, or the grant; and,
      when its own write is gone again, only that the key is empty. Losing a race never
      does. What ends holding: the release, a foreign token that a tick saw on the key, or
      a crash; and a client that lost the lock releases nothing. */
  lemma EndsOnlyBy(cfg: Config, s: State, k: Step, i: nat)
    requires i < |s.clients| && Possible(cfg.env, s, k)
    ensures var before, after := s.clients[i], Next(cfg, s, k).clients[i];
            && (before.phase.Acquiring() && !after.phase.Acquiring() ==>
                  && k.By? && k.who == i
                  && match k.move
                     case GiveUp => after.phase.Idle?
                     case LookFailed => after.phase.Idle?
                     case CreateFailed(_) => after.phase.Releasing?
                     case SwapFailed(_) => after.phase.Releasing?
                     case VerifyFailed => after.phase.Releasing?
                     case Verify => s.bucket.slot.Absent? && after.phase.Releasing?
                     case Grant => before.phase.Confirmed? && after.phase.Holding?
                     case Crash => true
                     case _ => false)
            && (before.phase.Holder() && !after.phase.Holder() ==>
                  && k.By? && k.who == i
                  && match k.move
                     case Release => after.phase.Releasing?
                     case TickLose => before.phase.Doomed? && after.phase.Lost?
                     case Crash => true
                     case _ => false)
            && (after.phase.Doomed? && !before.phase.Doomed? ==>
                  k == By(i, TickLook) && before.phase.Checking? && s.bucket.slot.Object? &&
                  s.bucket.slot.token != before.token)
            && (before.phase.Lost? && !after.phase.Lost? ==>
                  k == By(i, Crash) || (k == By(i, Release) && after.phase.Idle?))
            && (before.phase.Acquiring() || before.phase.Holder() ==> after.token == before.token)
  {
  }
}
