/**
 The distributed lock of internal/cache/s3/lock.go as a transition system: one
 bucket key, any number of clients, and one step per effect of a HEAD, PUT or
 DELETE, per reply, and per decision taken between two calls.

 `Possible` says what the code and an S3 server allow, with no assumption on
 clocks. `OnTime` adds the assumptions about time, so every timed run is also
 an untimed one.
 */
module LockProtocol {

  // Nanoseconds, the unit of Go's time.Duration.
  const SECOND: int := 1_000_000_000

  // lockTiming without the backoff bounds, which only delay an attempt.
  datatype Timing = Timing(ttl: int, interval: int, opTimeout: int, releaseTimeout: int, waitCeiling: int)
  {
    predicate WellFormed() {
      0 <= ttl && 0 <= opTimeout <= interval && 0 <= releaseTimeout && 0 <= waitCeiling
    }
  }

  // What the environment may do: by how much a clock reading may be off, how
  // many heartbeats in a row may fail before and after the first that lands,
  // and whether a DELETE that landed may lose its reply and be sent again.
  datatype Env = Env(skew: int, firstBudget: nat, laterBudget: nat, lostDeletes: bool)
  {
    predicate WellFormed() { 0 <= skew }
  }

  datatype Config = Config(timing: Timing, env: Env)
  {
    predicate WellFormed() { timing.WellFormed() && env.WellFormed() }
  }

  // A deadline formatted as RFC3339 keeps whole seconds only.
  function Recorded(t: int): (r: int)
    ensures t - SECOND < r <= t
    ensures t % SECOND == SECOND - 1 ==> r == t - SECOND + 1
  {
    t - t % SECOND
  }

  // The lock object: its token and deadline headers and its ETag, here the
  // serial number of the write that produced it.
  datatype Slot = Absent | Object(token: nat, deadline: int, etag: nat)

  // `writes` counts every effect on the key, deletions included, so it names
  // the current version of the key whether or not an object is there.
  datatype Bucket = Bucket(slot: Slot, writes: nat)
  {
    function Put(token: nat, deadline: int): Bucket {
      Bucket(Object(token, deadline, writes + 1), writes + 1)
    }

    function Delete(): Bucket {
      if slot.Absent? then this else Bucket(Absent, writes + 1)
    }

    predicate Owned(token: nat) { slot.Object? && slot.token == token }
  }

  // A deadline about to be written: when the clock was read and what it said.
  datatype Stamp = Stamp(at: int, read: int)

  // Where a client stands. A HEAD whose effect has happened but whose reply is
  // still on the way has a phase of its own, since the key may change meanwhile.
  datatype Phase =
    | Idle
    | Crashed
    | Trying                               // in the loop, between attempts
    | Creating(stamp: Stamp)               // create-if-absent PUT in flight
    | Refused                              // the create answered 412
    | Judging(seen: Slot)                  // HEAD saw this object
    | Swapping(etag: nat, stamp: Stamp)    // If-Match PUT in flight
    | Claiming                             // own PUT stored, verifying HEAD due
    | Confirmed                            // verifying HEAD saw the own token
    | Holding                              // heartbeat waits for its ticker
    | Checking                             // tick begun, HEAD due
    | Approved                             // tick's HEAD saw the own token
    | Refreshing(stamp: Stamp, landed: bool) // tick's unconditional PUT in flight
    | Doomed                               // tick's HEAD saw a foreign token
    | Lost                                 // loss recorded, heartbeat stopped
    | Releasing                            // releaseLock (or abandon), HEAD due
    | Deleting                             // its HEAD saw the own token
  {
    // Inside acquireLockLoop, hence under the wait ceiling.
    predicate Acquiring() {
      Trying? || Creating? || Refused? || Judging? || Swapping? || Claiming? || Confirmed?
    }

    // The holder context is live: acquireLock returned and nothing ended it.
    predicate Holder() {
      Holding? || Checking? || Approved? || Refreshing? || Doomed?
    }

    // Inside heartbeatTick, hence under its operation timeout.
    predicate Ticking() { Checking? || Approved? || Refreshing? || Doomed? }

    // Inside releaseLock, hence under the release timeout.
    predicate Ending() { Releasing? || Deleting? }
  }

  datatype Client = Client(
    phase: Phase,
    token: nat,
    began: int,      // when this acquisition, and its wait ceiling, started
    tickAt: int,     // when the current or next heartbeat tick starts
    until: int,      // when the release timeout expires
    left: nat,       // heartbeats that may still fail in a row
    refreshed: bool, // a heartbeat PUT has landed
    asOf: int)      // when the deadline last written by this token was computed

  // What happened, as a history of the run.
  datatype Event =
    | ReadExpired(who: nat, seen: Slot, clock: int)
    | Took(who: nat, over: Slot, version: nat)
    | Granted(who: nat, seen: Slot)

  datatype State = State(now: int, bucket: Bucket, clients: seq<Client>, tokens: nat, log: seq<Event>)

  // now.After(deadline) of lockExpired; every object here carries a
  // well-formed deadline, which is the branch that decides.
  predicate Expired(clock: int, seen: Slot)
    requires seen.Object?
  {
    clock > seen.deadline
  }

  datatype Move =
    | Begin
    | StartAttempt(clock: int)
    | CreateStored
    | CreateConflict
    | CreateRefused
    | CreateFailed(landed: bool)
    | Look
    | LookFailed
    | Judge(clock: int, clock2: int)
    | SwapStored
    | SwapConflict
    | SwapGone
    | SwapRefused
    | SwapFailed(landed: bool)
    | Verify
    | VerifyFailed
    | Grant
    | GiveUp
    | TickBegin
    | TickLook
    | TickStamp(clock: int)
    | TickLand
    | TickEnd
    | TickFail
    | TickLose
    | Release
    | ReleaseLook
    | ReleaseFailed
    | DeleteLand(lostReply: bool)
    | Crash

  datatype Step = Advance(to: int) | By(who: nat, move: Move)

  // What the code and the server allow, whatever the clocks say.
  ghost predicate CanMove(env: Env, s: State, i: nat, m: Move)
  {
    i < |s.clients| &&
    var c := s.clients[i];
    var slot := s.bucket.slot;
    match m
    case Begin => c.phase.Idle?
    case StartAttempt(_) => c.phase.Trying?
    case CreateStored => c.phase.Creating? && slot.Absent?
    case CreateConflict => c.phase.Creating?
    case CreateRefused => c.phase.Creating?
    case CreateFailed(landed) => c.phase.Creating? && (landed ==> slot.Absent?)
    case Look => c.phase.Refused?
    case LookFailed => c.phase.Refused?
    case Judge(_, _) => c.phase.Judging? && c.phase.seen.Object?
    case SwapStored => c.phase.Swapping? && slot.Object? && slot.etag == c.phase.etag
    case SwapConflict => c.phase.Swapping?
    case SwapGone => c.phase.Swapping? && slot.Absent?
    case SwapRefused => c.phase.Swapping?
    case SwapFailed(landed) => c.phase.Swapping? && (landed ==> slot.Object? && slot.etag == c.phase.etag)
    case Verify => c.phase.Claiming?
    case VerifyFailed => c.phase.Claiming? || c.phase.Confirmed?
    case Grant => c.phase.Confirmed?
    case GiveUp => c.phase.Trying?
    case TickBegin => c.phase.Holding?
    case TickLook => c.phase.Checking?
    case TickStamp(_) => c.phase.Approved?
    case TickLand => c.phase.Refreshing?
    case TickEnd => c.phase.Refreshing? && c.phase.landed
    case TickFail => c.phase.Checking? || c.phase.Approved? || (c.phase.Refreshing? && !c.phase.landed)
    case TickLose => c.phase.Doomed?
    case Release => c.phase.Holding? || c.phase.Checking? || c.phase.Approved? || c.phase.Refreshing? || c.phase.Lost?
    case ReleaseLook => c.phase.Releasing?
    case ReleaseFailed => c.phase.Releasing? || c.phase.Deleting?
    case DeleteLand(lostReply) => c.phase.Deleting? && (lostReply ==> env.lostDeletes)
    case Crash => !c.phase.Idle?
  }

  // What a move does to its client, to the bucket and to the history.
  datatype Effect = Effect(client: Client, bucket: Bucket, events: seq<Event>)

  ghost function Run(cfg: Config, s: State, i: nat, m: Move): Effect
    requires CanMove(cfg.env, s, i, m)
  {
    var t := cfg.timing;
    var c := s.clients[i];
    var b := s.bucket;
    match m
    case Begin =>
      Effect(c.(phase := Trying, token := s.tokens, began := s.now, asOf := s.now), b, [])
    case StartAttempt(clock) => Effect(c.(phase := Creating(Stamp(s.now, clock))), b, [])
    case CreateStored => Stored(cfg, s, i, Claiming)
    case CreateConflict => Effect(c.(phase := Trying), b, [])
    case CreateRefused => Effect(c.(phase := Refused), b, [])
    case CreateFailed(landed) =>
      if landed then Stored(cfg, s, i, Releasing) else Effect(Abandon(cfg, s, c), b, [])
    case Look =>
      Effect(c.(phase := if b.slot.Absent? then Trying else Judging(b.slot)), b, [])
    case LookFailed => Effect(c.(phase := Idle), b, [])
    case Judge(clock, clock2) =>
      if Expired(clock, c.phase.seen) then
        Effect(c.(phase := Swapping(c.phase.seen.etag, Stamp(s.now, clock2))), b,
               [ReadExpired(c.token, c.phase.seen, clock)])
      else
        Effect(c.(phase := Trying), b, [])
    case SwapStored => Stored(cfg, s, i, Claiming)
    case SwapConflict => Effect(c.(phase := Trying), b, [])
    case SwapGone => Effect(c.(phase := Trying), b, [])
    case SwapRefused => Effect(c.(phase := Trying), b, [])
    case SwapFailed(landed) =>
      if landed then Stored(cfg, s, i, Releasing) else Effect(Abandon(cfg, s, c), b, [])
    case Verify =>
      if b.Owned(c.token) then Effect(c.(phase := Confirmed), b, [Granted(c.token, b.slot)])
      else if b.slot.Absent? then Effect(Abandon(cfg, s, c), b, [])
      else Effect(c.(phase := Trying), b, [])
    case VerifyFailed => Effect(Abandon(cfg, s, c), b, [])
    case Grant =>
      Effect(c.(phase := Holding, tickAt := s.now + t.interval, left := cfg.env.firstBudget, refreshed := false), b, [])
    case GiveUp => Effect(c.(phase := Idle), b, [])
    case TickBegin => Effect(c.(phase := Checking), b, [])
    case TickLook =>
      if b.Owned(c.token) then Effect(c.(phase := Approved), b, [])
      else if b.slot.Absent? then Effect(NextTick(cfg, c), b, [])
      else Effect(c.(phase := Doomed), b, [])
    case TickStamp(clock) => Effect(c.(phase := Refreshing(Stamp(s.now, clock), false)), b, [])
    case TickLand =>
      var stamp := c.phase.stamp;
      Effect(c.(phase := Refreshing(stamp, true), asOf := stamp.at, refreshed := true, left := cfg.env.laterBudget),
             b.Put(c.token, Recorded(stamp.read + t.ttl)), [])
    case TickEnd => Effect(c.(phase := Holding, tickAt := c.tickAt + t.interval), b, [])
    case TickFail => Effect(NextTick(cfg, c), b, [])
    case TickLose => Effect(c.(phase := Lost), b, [])
    case Release =>
      Effect(if c.phase.Lost? then c.(phase := Idle) else Abandon(cfg, s, c), b, [])
    case ReleaseLook => Effect(c.(phase := if b.Owned(c.token) then Deleting else Idle), b, [])
    case ReleaseFailed => Effect(c.(phase := Idle), b, [])
    case DeleteLand(lostReply) =>
      Effect(c.(phase := if lostReply then Deleting else Idle), b.Delete(), [])
    case Crash => Effect(c.(phase := Crashed), b, [])
  }

  // The client enters releaseLock on a fresh context, whether it releases a
  // lock it held or abandons an object its failed acquisition may have left.
  function Abandon(cfg: Config, s: State, c: Client): Client {
    c.(phase := Releasing, until := s.now + cfg.timing.releaseTimeout)
  }

  // A tick that refreshed nothing: one failure spent, the ticker goes on.
  function NextTick(cfg: Config, c: Client): Client {
    c.(phase := Holding, tickAt := c.tickAt + cfg.timing.interval, left := if c.left > 0 then c.left - 1 else 0)
  }

  // A conditional PUT takes effect. Its reply either arrives (Claiming) or is
  // lost, and then the object is abandoned (Releasing).
  ghost function Stored(cfg: Config, s: State, i: nat, next: Phase): Effect
    requires i < |s.clients|
    requires s.clients[i].phase.Creating? || s.clients[i].phase.Swapping?
    requires next.Claiming? || next.Releasing?
  {
    var c := s.clients[i];
    var stamp := c.phase.stamp;
    var c' := if next.Claiming? then c.(phase := Claiming) else Abandon(cfg, s, c);
    Effect(c'.(asOf := stamp.at),
           s.bucket.Put(c.token, Recorded(stamp.read + cfg.timing.ttl)),
           [Took(c.token, s.bucket.slot, s.bucket.writes)])
  }

  // Steps allowed with no assumption on time.
  ghost predicate Possible(env: Env, s: State, k: Step) {
    match k
    case Advance(_) => true
    case By(i, m) => CanMove(env, s, i, m)
  }

  ghost function Next(cfg: Config, s: State, k: Step): State
    requires Possible(cfg.env, s, k)
  {
    match k
    case Advance(to) => s.(now := to)
    case By(i, m) =>
      var e := Run(cfg, s, i, m);
      State(s.now, e.bucket, s.clients[i := e.client], if m.Begin? then s.tokens + 1 else s.tokens, s.log + e.events)
  }

  // The assumptions about time. A call takes effect before it returns, and
  // returns when its context expires, so time cannot pass the expiry of a
  // context some client is still inside; a due tick starts at once.
  ghost predicate MayWait(t: Timing, c: Client, to: int) {
    && (c.phase.Acquiring() ==> to <= c.began + t.waitCeiling)
    && (c.phase.Holding? ==> to <= c.tickAt)
    && (c.phase.Ticking() ==> to <= c.tickAt + t.opTimeout)
    && (c.phase.Ending() ==> to <= c.until)
  }

  predicate Near(env: Env, now: int, clock: int) {
    now - env.skew <= clock <= now + env.skew
  }

  // What timing adds to a move: clock readings are near the real time, ticks
  // start when due, and no more heartbeats in a row fail than the budget.
  ghost predicate Punctual(cfg: Config, s: State, i: nat, m: Move)
    requires CanMove(cfg.env, s, i, m)
  {
    match m
    case StartAttempt(clock) => Near(cfg.env, s.now, clock)
    case Judge(clock, clock2) => Near(cfg.env, s.now, clock) && Near(cfg.env, s.now, clock2)
    case TickStamp(clock) => Near(cfg.env, s.now, clock)
    case TickBegin => s.now == s.clients[i].tickAt
    case TickFail => s.clients[i].left > 0
    case TickLook => s.bucket.slot.Absent? ==> s.clients[i].left > 0
    case _ => true
  }

  ghost predicate OnTime(cfg: Config, s: State, k: Step)
    requires Possible(cfg.env, s, k)
  {
    match k
    case Advance(to) => s.now <= to && forall i: nat :: i < |s.clients| ==> MayWait(cfg.timing, s.clients[i], to)
    case By(i, m) => Punctual(cfg, s, i, m)
  }

  // At first no object exists and every client is idle, with distinct tokens
  // that no acquisition uses.
  ghost predicate Init(s: State) {
    && s.bucket == Bucket(Absent, 0)
    && s.tokens == |s.clients|
    && s.log == []
    && forall i: nat :: i < |s.clients| ==>
         s.clients[i].phase == Idle && s.clients[i].token == i && s.clients[i].asOf <= s.now
  }

  // One step of a run; `timed` selects whether the assumptions about time are made.
  ghost predicate Steps(cfg: Config, timed: bool, s: State, k: Step, s': State) {
    Possible(cfg.env, s, k) && (timed ==> OnTime(cfg, s, k)) && s' == Next(cfg, s, k)
  }

  // A run: its states, and the step taken between each two neighbours.
  datatype Trace = Trace(states: seq<State>, steps: seq<Step>)

  ghost predicate IsRun(cfg: Config, timed: bool, r: Trace) {
    && |r.states| == |r.steps| + 1
    && Init(r.states[0])
    && forall n: nat {:trigger r.steps[n]} ::
         n < |r.steps| ==> Steps(cfg, timed, r.states[n], r.steps[n], r.states[n + 1])
  }

  ghost predicate Reachable(cfg: Config, timed: bool, s: State) {
    exists r: Trace :: IsRun(cfg, timed, r) && r.states[|r.steps|] == s
  }

  // At most one client has a live holder context.
  ghost predicate MutualExclusion(s: State) {
    forall i: nat, j: nat ::
      i < |s.clients| && j < |s.clients| && s.clients[i].phase.Holder() && s.clients[j].phase.Holder() ==> i == j
  }
}
