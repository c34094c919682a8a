/**
 acquireLockLoop's own state: how often it retries without sleeping, and how
 an ended wait is classified.
 */
module AcquireLoop {
  const MAX_IMMEDIATE_RETRIES: nat := 8

  datatype Error = Attempt(code: int) | Parent | WaitTimeout | NoHolderObserved(inFlight: bool)

  // What one tryAcquireOnce learned, and what the contexts say right after it:
  // whether the wait ceiling has passed, whether the parent is canceled, and
  // whether the ceiling passes during the backoff that may follow.
  datatype Learned = Held | Failed(code: int, sawHolder: bool) | RetryNow | SawHolder | NothingLearned
  datatype Round = Round(learned: Learned, waitOver: bool, parentOver: bool, overInBackoff: bool)

  datatype Outcome = Acquired | Refused(error: Error)

  predicate Observes(r: Round) {
    r.learned.SawHolder? || (r.learned.Failed? && r.learned.sawHolder)
  }

  function WaitCeilingErr(parentOver: bool, observed: bool, inFlight: bool): Error {
    if parentOver then Parent
    else if observed then WaitTimeout
    else NoHolderObserved(inFlight)
  }

  // Some round among the first n observed another holder.
  ghost predicate Observed(rounds: seq<Round>, n: nat)
    requires n <= |rounds|
  {
    exists i: nat :: i < n && Observes(rounds[i])
  }

  // The round that ends the loop.
  predicate Ends(r: Round, slept: bool) {
    r.learned.Held? || r.learned.Failed? || (slept && r.overInBackoff)
  }

  // How many rounds in a row, at the end, went on without a backoff.
  function Streak(slept: seq<bool>): nat {
    if slept == [] || slept[|slept| - 1] then 0 else 1 + Streak(slept[..|slept| - 1])
  }

  // How many rounds in a row, up to the one before index n, said to retry at once.
  function Retries(rounds: seq<Round>, n: nat): nat
    requires n <= |rounds|
  {
    if n == 0 || !rounds[n - 1].learned.RetryNow? then 0 else 1 + Retries(rounds, n - 1)
  }

  // A round goes on at once: it says so, within the budget since the last one that
  // said anything else.
  predicate AtOnce(rounds: seq<Round>, i: nat)
    requires i < |rounds|
  {
    rounds[i].learned.RetryNow? && Retries(rounds, i + 1) <= MAX_IMMEDIATE_RETRIES
  }

  // At no point more than the budget of rounds in a row without a backoff.
  ghost predicate Bounded(slept: seq<bool>) {
    forall n: nat :: n <= |slept| ==> Streak(slept[..n]) <= MAX_IMMEDIATE_RETRIES
  }

  lemma AppendBounded(slept: seq<bool>, b: bool)
    requires Bounded(slept) && (b || Streak(slept) < MAX_IMMEDIATE_RETRIES)
    ensures Bounded(slept + [b]) && Streak(slept + [b]) == if b then 0 else 1 + Streak(slept)
  {
    var next := slept + [b];
    assert next[..|slept|] == slept;
    forall n: nat | n <= |next| ensures Streak(next[..n]) <= MAX_IMMEDIATE_RETRIES {
      if n <= |slept| { assert next[..n] == slept[..n]; } else { assert next[..n] == next; }
    }
  }

  // Every round so far went on, with or without a backoff, as it had to.
  ghost predicate WentOn(rounds: seq<Round>, slept: seq<bool>)
    requires |slept| <= |rounds|
  {
    && Bounded(slept) && Streak(slept) <= Retries(rounds, |slept|)
    && forall i: nat :: i < |slept| ==> !Ends(rounds[i], slept[i]) && (slept[i] <==> !AtOnce(rounds, i))
  }

  lemma GoesOn(rounds: seq<Round>, slept: seq<bool>, b: bool)
    requires |slept| < |rounds| && WentOn(rounds, slept)
    requires !Ends(rounds[|slept|], b) && (b <==> !AtOnce(rounds, |slept|))
    ensures WentOn(rounds, slept + [b])
  {
    AppendBounded(slept, b);
  }

  lemma ObservedOneMore(rounds: seq<Round>, n: nat)
    requires n < |rounds|
    ensures Observed(rounds, n + 1) <==> Observed(rounds, n) || Observes(rounds[n])
  {}

  /** Runs the loop over the rounds the environment serves; a script that ends
      before the loop does stands for a ceiling that passes in the next backoff.
      `slept[i]` says whether the loop went into its backoff after round i. */
  method Loop(rounds: seq<Round>) returns (out: Outcome, slept: seq<bool>)
    requires rounds != [] && rounds[|rounds| - 1].overInBackoff
    requires !rounds[|rounds| - 1].learned.RetryNow?
    ensures 0 < |slept| <= |rounds|
    ensures forall i: nat :: i < |slept| - 1 ==> !Ends(rounds[i], slept[i])
    ensures Ends(rounds[|slept| - 1], slept[|slept| - 1])
    ensures Bounded(slept[..|slept| - 1])
    // A round that does not decide goes into a backoff exactly unless it says to retry
    // at once and may; once the budget is spent, only another answer resets it.
    ensures forall i: nat :: i < |slept| && !rounds[i].learned.Held? && !rounds[i].learned.Failed? ==>
              (slept[i] <==> !AtOnce(rounds, i))
    ensures out.Acquired? <==> rounds[|slept| - 1].learned.Held?
    // An ended wait is contention exactly when some round observed a holder.
    ensures out.Refused? && (rounds[|slept| - 1].waitOver || !rounds[|slept| - 1].learned.Failed?) ==>
              if rounds[|slept| - 1].parentOver then out.error == Parent
              else (out.error == WaitTimeout <==> Observed(rounds, |slept|)) &&
                   (out.error.NoHolderObserved? <==> !Observed(rounds, |slept|))
    // It also says whether the ceiling fell into an attempt or into a backoff.
    ensures out.Refused? && out.error.NoHolderObserved? ==>
              (out.error.inFlight <==> rounds[|slept| - 1].learned.Failed?)
    ensures out.Refused? && rounds[|slept| - 1].learned.Failed? && !rounds[|slept| - 1].waitOver ==>
              out.error == Attempt(rounds[|slept| - 1].learned.code)
  {
    var consecutiveRetryNow, observedHolder := 0, false;
    slept := [];
    var attempt := 0;
    while true
      invariant attempt == |slept| < |rounds| && WentOn(rounds, slept)
      invariant consecutiveRetryNow == Retries(rounds, attempt)
      invariant observedHolder <==> Observed(rounds, attempt)
      decreases |rounds| - attempt
    {
      var res := rounds[attempt];
      ghost var before := slept;
      ObservedOneMore(rounds, attempt);
      observedHolder := observedHolder || Observes(res);
      var immediate := false;
      match res.learned {
        case Failed(code, _) =>
          out := Refused(if res.waitOver then WaitCeilingErr(res.parentOver, observedHolder, true) else Attempt(code));
          slept := slept + [false];
          assert slept[..attempt] == before;
          return;
        case Held =>
          out := Acquired;
          slept := slept + [false];
          assert slept[..attempt] == before;
          return;
        case RetryNow =>
          consecutiveRetryNow := consecutiveRetryNow + 1;
          immediate := consecutiveRetryNow <= MAX_IMMEDIATE_RETRIES;
        case _ =>
          consecutiveRetryNow := 0;
      }
      slept := slept + [!immediate];
      if !immediate && res.overInBackoff {
        assert slept[..attempt] == before;
        out := Refused(WaitCeilingErr(res.parentOver, observedHolder, false));
        return;
      }
      GoesOn(rounds, before, !immediate);
      attempt := attempt + 1;
    }
  }
}
