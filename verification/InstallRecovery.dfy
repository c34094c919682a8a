/**
 Installing one collection (internal/galaxy/collections/install.go:33-87,
 138-268 and 348-372): where its artifact comes from, the one eviction and
 refetch after a corrupt cache hit, and who frees which temporary file.

 Every call into code that is not modelled here answers through `Calls`, one for
 each attempt; a temporary file is a number, and `open` holds those not freed yet.
 */
module InstallRecovery {
  import opened Wrappers

  // How fetching an artifact goes: a local cache hands out its own file, which is
  // no temp; a failure may be the cache's checksum mismatch.
  datatype Fetch = Fetched(temp: bool) | FetchFailed(mismatch: bool)

  // What verifying and extracting says; a refused artifact may be beyond what a
  // fresh download could repair.
  datatype Action = Accepted | Refused(repairable: bool)

  datatype Calls = Calls(
    cached: bool,        // the cache has the artifact
    metadata: bool,      // the version document loads
    fromCache: Fetch,
    fromOrigin: Fetch,
    hashes: bool,        // a checksum to record is found
    action: Action)

  datatype Config = Config(noCache: bool, offline: bool, locked: bool)

  datatype Prepared = Payload(temp: Option<nat>) | Unprepared(mismatch: bool)

  // How the loop ends.
  datatype End = Installed(temp: Option<nat>) | NotInstalled

  function Temps(temp: Option<nat>): set<nat> {
    match temp
    case None => {}
    case Some(t) => {t}
  }

  // ------------------------------------------------------ one attempt

  // Whether an attempt is served from the cache.
  predicate Hit(cfg: Config, calls: Calls, prefetched: bool, forced: bool) {
    !forced && !prefetched && !cfg.noCache && calls.cached
  }

  // Whether an attempt gets a payload in hand.
  predicate Ready(cfg: Config, calls: Calls, prefetched: bool, forced: bool) {
    && calls.hashes
    && ((prefetched && !forced) ||
        (if Hit(cfg, calls, prefetched, forced) then calls.fromCache.Fetched?
         else calls.metadata && calls.fromOrigin.Fetched?))
  }

  predicate Works(cfg: Config, calls: Calls, prefetched: bool, forced: bool) {
    Ready(cfg, calls, prefetched, forced) && calls.action.Accepted?
  }

  // The cached copy failed in a way that another copy could repair, and one may
  // be asked for.
  predicate Recoverable(cfg: Config, calls: Calls, prefetched: bool) {
    && Hit(cfg, calls, prefetched, false) && !cfg.offline
    && (calls.fromCache == FetchFailed(true) ||
        (Ready(cfg, calls, prefetched, false) && calls.action == Refused(true)))
  }

  // A locked collection's copy is kept unless the cache itself found it corrupt.
  predicate Evicts(cfg: Config, calls: Calls, prefetched: bool) {
    Recoverable(cfg, calls, prefetched) && (!cfg.locked || calls.fromCache == FetchFailed(true))
  }

  // The whole loop over its two possible attempts.
  predicate Recovers(cfg: Config, first: Calls, second: Calls, prefetched: bool) {
    || Works(cfg, first, prefetched, false)
    || (Recoverable(cfg, first, prefetched) && Works(cfg, second, prefetched, true))
  }

  class Installer {
    const cfg: Config
    var open: set<nat>      // temps not freed
    var made: nat           // temps ever made
    var attempts: nat
    var evictions: nat      // deletes against the shared cache

    ghost predicate Valid()
      reads this
    {
      forall t :: t in open ==> t < made
    }

    constructor (cfg: Config)
      ensures Valid() && this.cfg == cfg && open == {} && attempts == 0 && evictions == 0
    {
      this.cfg := cfg;
      open, made, attempts, evictions := {}, 0, 0, 0;
    }

    // A cleanup function may only run while its file is there.
    method Cleanup(temp: Option<nat>)
      requires Valid() && Temps(temp) <= open
      modifies this`open
      ensures Valid() && open == old(open) - Temps(temp)
    {
      if temp.Some? { open := open - {temp.value}; }
    }

    method Obtain(fetch: Fetch) returns (temp: Option<nat>)
      requires Valid() && fetch.Fetched?
      modifies this`open, this`made
      ensures Valid() && open == old(open) + Temps(temp) && Temps(temp) !! old(open)
      ensures temp.Some? ==> old(made) <= temp.value
      ensures made >= old(made)
    {
      if fetch.temp {
        temp := Some(made);
        open := open + {made};
        made := made + 1;
      } else {
        temp := None;
      }
    }

    // prepareInstall and payloadFromPrefetched
    method PrepareInstall(calls: Calls, prefetched: Option<nat>, forced: bool)
      returns (prepared: Prepared, fromCache: bool)
      requires Valid() && Temps(prefetched) <= open
      modifies this`open, this`made
      ensures Valid() && made >= old(made)
      ensures fromCache == Hit(cfg, calls, prefetched.Some?, forced)
      ensures prepared.Payload? == Ready(cfg, calls, prefetched.Some?, forced)
      ensures prepared.Unprepared? && fromCache ==> prepared.mismatch == (calls.fromCache == FetchFailed(true))
      ensures prepared.Payload? ==> Temps(prepared.temp) <= open
      ensures if prefetched.Some? && !forced
              then open == (if prepared.Payload? then old(open) else old(open) - Temps(prefetched)) &&
                   (prepared.Payload? ==> prepared.temp == prefetched)
              else if prepared.Payload?
              then open == old(open) + Temps(prepared.temp) && Temps(prepared.temp) !! old(open)
              else open == old(open)
    {
      if prefetched.Some? && !forced {
        if !calls.hashes {
          Cleanup(prefetched);
          return Unprepared(false), false;
        }
        return Payload(prefetched), false;
      }
      fromCache := !forced && !cfg.noCache && calls.cached;
      if !calls.metadata && !fromCache { return Unprepared(false), fromCache; }
      var fetch := if fromCache then calls.fromCache else calls.fromOrigin;
      if fetch.FetchFailed? { return Unprepared(fetch.mismatch), fromCache; }
      var temp := Obtain(fetch);
      if !calls.hashes {
        Cleanup(temp);
        return Unprepared(false), fromCache;
      }
      prepared := Payload(temp);
    }

    // evictCorruptCachedArtifact
    method Evict()
      modifies this`evictions
      ensures evictions == old(evictions) + 1
    {
      evictions := evictions + 1;
    }

    // prepareWithRecovery
    method PrepareWithRecovery(first: Calls, second: Calls, prefetched: Option<nat>) returns (end: End)
      requires Valid() && Temps(prefetched) <= open && attempts == 0 && evictions == 0
      modifies this
      ensures Valid()
      ensures end.Installed? == Recovers(cfg, first, second, prefetched.Some?)
      ensures attempts == if Recoverable(cfg, first, prefetched.Some?) then 2 else 1
      ensures evictions == if Evicts(cfg, first, prefetched.Some?) then 1 else 0
      // A second attempt follows a cached copy, met online, that mismatches or is
      // refused repairably; the cache loses it unless the collection is locked and the
      // cache itself found nothing wrong.
      ensures attempts == 2 <==>
                && prefetched.None? && first.cached && !cfg.noCache && !cfg.offline
                && (first.fromCache == FetchFailed(true) ||
                    (first.fromCache.Fetched? && first.hashes && first.action == Refused(true)))
      ensures evictions == 1 <==> attempts == 2 && (cfg.locked ==> first.fromCache == FetchFailed(true))
      ensures attempts == 1 ==>
                (end.Installed? <==>
                   && first.hashes && first.action == Accepted
                   && (prefetched.Some? ||
                       (if first.cached && !cfg.noCache then first.fromCache.Fetched?
                        else first.metadata && first.fromOrigin.Fetched?)))
      ensures attempts == 2 ==>
                (end.Installed? <==>
                   second.hashes && second.action == Accepted && second.metadata && second.fromOrigin.Fetched?)
      ensures end.NotInstalled? ==> open == old(open) - Temps(prefetched)
      ensures end.Installed? ==> open == old(open) - Temps(prefetched) + Temps(end.temp) &&
                                 Temps(end.temp) !! old(open) - Temps(prefetched)
    {
      var forced := false;
      while true
        invariant Valid() && attempts == (if forced then 1 else 0)
        invariant open == old(open)
        invariant forced ==> prefetched.None? && Recoverable(cfg, first, false) && !Works(cfg, first, false, false)
        invariant evictions == if forced && (!cfg.locked || first.fromCache == FetchFailed(true)) then 1 else 0
        decreases !forced
      {
        var calls := if forced then second else first;
        attempts := attempts + 1;
        var prepared, fromCache := PrepareInstall(calls, prefetched, forced);
        if prepared.Unprepared? {
          if fromCache && !forced && !cfg.offline && prepared.mismatch {
            Evict();
            forced := true;
            continue;
          }
          return NotInstalled;
        }
        if calls.action.Accepted? { return Installed(prepared.temp); }
        Cleanup(prepared.temp);
        if !(fromCache && !forced && !cfg.offline) || !calls.action.repairable { return NotInstalled; }
        if !cfg.locked { Evict(); }
        forced := true;
      }
    }

    // installCollection: `target` says that newInstallTarget accepted the
    // identifiers, `skip` that the collection is already there.
    method InstallCollection(target: bool, skip: bool, first: Calls, second: Calls, prefetched: Option<nat>)
      returns (ok: bool)
      requires Valid() && Temps(prefetched) <= open && attempts == 0 && evictions == 0
      modifies this
      ensures Valid() && attempts <= 2 && evictions <= 1
      ensures ok == (target && (skip || Recovers(cfg, first, second, prefetched.Some?)))
      ensures open == if target then old(open) - Temps(prefetched) else old(open)
    {
      if !target { return false; }
      if skip {
        Cleanup(prefetched);
        return true;
      }
      var end := PrepareWithRecovery(first, second, prefetched);
      if end.NotInstalled? { return false; }
      Cleanup(end.temp);
      ok := true;
    }
  }

  // ------------------------------------------- what the recovery is worth

  /** What a second attempt would see has no say in the install exactly when the
      first attempt works, or fails in any way but as a cached copy, online, that
      mismatches its checksum or is refused repairably. */
  lemma SecondAttemptCounts(cfg: Config, first: Calls, prefetched: bool)
    ensures (forall a: Calls, b: Calls ::
               Recovers(cfg, first, a, prefetched) == Recovers(cfg, first, b, prefetched)) <==>
            Works(cfg, first, prefetched, false) || !Recoverable(cfg, first, prefetched)
  {
    var good := Calls(false, true, Fetched(true), Fetched(true), true, Accepted);
    var bad := good.(hashes := false);
    assert Works(cfg, good, prefetched, true) && !Works(cfg, bad, prefetched, true);
    assert Recovers(cfg, first, good, prefetched) == Recovers(cfg, first, bad, prefetched) <==>
           Works(cfg, first, prefetched, false) || !Recoverable(cfg, first, prefetched);
  }

  /** So a failure decides at once when the artifact was prefetched, freshly
      downloaded or refused beyond repair, and whenever the run is offline. */
  lemma FailureIsFinal(cfg: Config, first: Calls, second: Calls, prefetched: bool)
    requires !Works(cfg, first, prefetched, false)
    requires prefetched || cfg.noCache || !first.cached || cfg.offline ||
             (first.action == Refused(false) && first.fromCache != FetchFailed(true))
    ensures !Recovers(cfg, first, second, prefetched)
  {
    SecondAttemptCounts(cfg, first, prefetched);
  }
}
