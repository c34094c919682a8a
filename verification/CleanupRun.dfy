/**
 A whole cleanup (internal/galaxy/cleanup/cleanup.go:78-107): what every recorded
 project needs is computed first, and then whatever no project needs is removed. Here
 the two halves meet.
 */
module CleanupRun {
  import opened CleanupScan
  import opened Reachability
  import Removal = CleanupRemove
  import opened Wrappers

  // Where the scan found each key's copies, and each role's.
  datatype Places = Places(collections: string -> seq<Removal.Copy>, roles: string -> seq<Removal.Copy>)

  // How the run is cut short: see CleanupRemove.Cache.Cleanup.
  datatype Cuts = Cuts(cancelAt: nat, cancelRolesAt: nat, canceledLate: bool, cancelSweepAt: nat, stuck: set<string>)

  function FoundOf(keys: set<string>, places: string -> seq<Removal.Copy>, reachable: set<string>,
                   sorted: set<string> -> seq<string>): Removal.Found
  {
    Removal.Found(sorted(keys), map k | k in keys :: places(k), reachable)
  }

  // The scan found each directory that holds a scanned key, and what it found there is
  // what is there.
  ghost predicate Faithful(disk: map<string, string>, keys: set<string>, places: string -> seq<Removal.Copy>) {
    var byKey := map k | k in keys :: places(k);
    Removal.Scanned(disk, byKey) && Removal.AllFound(disk, byKey)
  }

  // Everything that is needed is where it was, files and records.
  ghost predicate Untouched(disk: map<string, string>, records: map<string, string>,
                            disk0: map<string, string>, records0: map<string, string>, needed: set<string>)
  {
    && (forall d :: d in disk0 && disk0[d] in needed ==> d in disk && disk[d] == disk0[d])
    && (forall k :: k in records0 && k in needed ==> k in records && records[k] == records0[k])
  }

  // Of what was scanned, only what is needed is left.
  ghost predicate Tidy(disk: map<string, string>, records: map<string, string>,
                       scanned: set<string>, needed: set<string>)
  {
    && (forall d :: d in disk && disk[d] in scanned ==> disk[d] in needed)
    && (forall k :: k in records && k in scanned ==> k in needed)
  }

  lemma SparedIsUntouched(disk: map<string, string>, records: map<string, string>, disk0: map<string, string>,
                          records0: map<string, string>, keys: set<string>, places: string -> seq<Removal.Copy>,
                          needed: set<string>, sorted: set<string> -> seq<string>)
    requires Faithful(disk0, keys, places)
    requires Removal.Spared(disk, records, disk0, records0, FoundOf(keys, places, needed, sorted))
    ensures Untouched(disk, records, disk0, records0, needed)
  {
    var f := FoundOf(keys, places, needed, sorted);
    Removal.OnlyUnusedCopiesGo(disk0, f.byKey, needed, Removal.Unused(f.byKey, needed));
  }

  lemma CleanedIsTidy(disk: map<string, string>, records: map<string, string>, disk0: map<string, string>,
                      records0: map<string, string>, keys: set<string>, places: string -> seq<Removal.Copy>,
                      needed: set<string>, sorted: set<string> -> seq<string>)
    requires Faithful(disk0, keys, places)
    requires Removal.Cleaned(disk, records, disk0, records0, FoundOf(keys, places, needed, sorted))
    ensures Tidy(disk, records, keys, needed)
  {
    var f := FoundOf(keys, places, needed, sorted);
    Removal.OnlyUnusedCopiesGo(disk0, f.byKey, needed, Removal.Unused(f.byKey, needed));
  }

  // A sweep of what is stale takes nothing that a surviving record names.
  lemma NamedIsNotSwept(extracted: set<string>, contentRecorded: bool, records: map<string, string>,
                        roleRecords: map<string, string>, warmed: map<string, string>, c: Removal.Found,
                        q: Removal.Found, planned: seq<string>, cancelAt: nat, stuck: set<string>)
    requires Removal.ListingOf(planned, Removal.Stale(extracted, contentRecorded, records, roleRecords, warmed, c, q))
    ensures forall sha :: Removal.Names(records - Removal.Unused(c.byKey, c.reachable), sha) ||
                          Removal.Names(roleRecords - Removal.Unused(q.byKey, q.reachable), sha) ==>
              sha !in Removal.Removed(planned, cancelAt, stuck)
  {
    forall sha | Removal.Names(records - Removal.Unused(c.byKey, c.reachable), sha) ||
                 Removal.Names(roleRecords - Removal.Unused(q.byKey, q.reachable), sha)
      ensures sha !in Removal.Removed(planned, cancelAt, stuck)
    {
      Removal.SweptExactlyWhenUnnamed(extracted, contentRecorded, records, roleRecords, warmed, c, q, sha);
    }
  }

  /** cleanupWithState. Wherever a run ends, canceled, failed or complete, every copy
      and record of a collection or role that some recorded project needs is as it was;
      a run that cannot learn what some project needs changes nothing at all; and
      after one that gets past its removals, what was scanned and is left is needed. */
  method CleanupProjects(rules: Rules, records: Records, projects: seq<Project>, cache: Removal.Cache, places: Places,
                         sorted: set<string> -> seq<string>, dry: bool, listing: seq<string>, cuts: Cuts)
    returns (known: bool, ok: bool, w: Scan, byName: RolesByName,
             ghost needed: set<string>, ghost neededRoles: set<string>)
    requires cache.collections != cache.roles
    requires forall s: set<string> {:trigger sorted(s)} :: Removal.ListingOf(sorted(s), s)
    requires Removal.ListingOf(listing, cache.extracted)
    modifies cache, cache.collections, cache.roles
    ensures known <==> forall i: nat :: i < |projects| ==> CanScan(projects[i]) && !projects[i].file.Unreadable?
    ensures ok <==>
              && known && !cuts.canceledLate
              && Removal.GoesThrough(FoundOf(w.installed, places.collections, needed, sorted), dry, cuts.cancelAt)
              && Removal.GoesThrough(FoundOf(byName.Keys, places.roles, neededRoles, sorted), dry, cuts.cancelRolesAt)
    // The extracted store keeps what some record that is left names.
    ensures forall sha :: sha in old(cache.extracted) &&
                          (Removal.Names(cache.collections.records, sha) || Removal.Names(cache.roles.records, sha)) ==>
              sha in cache.extracted
    ensures dry || !ok ==> cache.extracted == old(cache.extracted)
    ensures known ==> Indexed(Manifests(projects), w) && RolesIndexed(FoundRoles(projects), byName)
    ensures known ==> forall key :: key in needed <==> Needed(w, projects, key)
    ensures known ==> forall name :: name in neededRoles <==> RoleNeeded(byName, projects, name)
    ensures !known ==> !ok && cache.extracted == old(cache.extracted)
    ensures !known ==>
              Removal.Same(cache.collections.disk, cache.collections.records,
                           old(cache.collections.disk), old(cache.collections.records))
    ensures !known ==>
              Removal.Same(cache.roles.disk, cache.roles.records, old(cache.roles.disk), old(cache.roles.records))
    ensures known && Faithful(old(cache.collections.disk), w.installed, places.collections) ==>
              Untouched(cache.collections.disk, cache.collections.records,
                        old(cache.collections.disk), old(cache.collections.records), needed)
    ensures known && Faithful(old(cache.roles.disk), byName.Keys, places.roles) ==>
              Untouched(cache.roles.disk, cache.roles.records,
                        old(cache.roles.disk), old(cache.roles.records), neededRoles)
    ensures ok && !dry && Faithful(old(cache.collections.disk), w.installed, places.collections) ==>
              Tidy(cache.collections.disk, cache.collections.records, w.installed, needed)
    ensures ok && !dry && Faithful(old(cache.roles.disk), byName.Keys, places.roles) ==>
              Tidy(cache.roles.disk, cache.roles.records, byName.Keys, neededRoles)
  {
    var r;
    needed, neededRoles := {}, {};
    r, w, byName := BuildReachable(rules, records, projects);
    if !r.Marked? { return false, false, w, byName, needed, neededRoles; }
    KeptIsNeeded(w, byName, projects, r.keys, r.roles);
    known, needed, neededRoles := true, r.keys, r.roles;
    var c := FoundOf(w.installed, places.collections, r.keys, sorted);
    var q := FoundOf(byName.Keys, places.roles, r.roles, sorted);
    var removed, planned, swept;
    ghost var disk, recorded := cache.collections.disk, cache.collections.records;
    ghost var roleDisk, roleRecorded := cache.roles.disk, cache.roles.records;
    ghost var extracted := cache.extracted;
    removed, ok, planned, swept := cache.Cleanup(c, q, dry, cuts.cancelAt, cuts.cancelRolesAt, cuts.canceledLate,
                                                 listing, cuts.cancelSweepAt, cuts.stuck);
    if ok && !dry {
      NamedIsNotSwept(extracted, cache.contentRecorded, recorded, roleRecorded, cache.warmed, c, q, planned,
                      cuts.cancelSweepAt, cuts.stuck);
    }
    if Faithful(disk, w.installed, places.collections) {
      SparedIsUntouched(cache.collections.disk, cache.collections.records, disk, recorded,
                        w.installed, places.collections, r.keys, sorted);
      if ok && !dry {
        CleanedIsTidy(cache.collections.disk, cache.collections.records, disk, recorded,
                      w.installed, places.collections, r.keys, sorted);
      }
    }
    if Faithful(roleDisk, byName.Keys, places.roles) {
      SparedIsUntouched(cache.roles.disk, cache.roles.records, roleDisk, roleRecorded,
                        byName.Keys, places.roles, r.roles, sorted);
      if ok && !dry {
        CleanedIsTidy(cache.roles.disk, cache.roles.records, roleDisk, roleRecorded,
                      byName.Keys, places.roles, r.roles, sorted);
      }
    }
  }
}
