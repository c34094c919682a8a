/**
 What cleanup deletes and what it keeps (internal/galaxy/cleanup/remove.go:19-70,
 roles.go:226-279, sweep.go:76-158, cleanup.go:80-119): removal in key order, then
 the keep set of the extracted store, in a dry run and in a real one.
 */
module CleanupRemove {
  // A copy the scan found, and whether its files can be removed.
  datatype Copy = Copy(dir: string, removable: bool)

  type Copies = map<string, seq<Copy>>

  ghost function Dirs(byKey: Copies, keys: set<string>): set<string> {
    set k, c | k in keys && k in byKey && c in byKey[k] :: c.dir
  }

  ghost function DirsOf(copies: seq<Copy>): set<string> { set c | c in copies :: c.dir }

  // Scanned, but reached from no project.
  function Unused(byKey: Copies, reachable: set<string>): set<string> { byKey.Keys - reachable }

  function Among(keys: seq<string>, s: set<string>): set<string> { set k | k in keys && k in s }

  // slices.Sorted(maps.Keys(byKey)): every key once.
  ghost predicate Listing(keys: seq<string>, byKey: Copies) {
    && (forall k :: k in keys <==> k in byKey)
    && (forall i: nat, j: nat :: i < j < |keys| ==> keys[i] != keys[j])
  }

  // How a pass over the keys ends: after n keys, all in order; or stopped by
  // cancellation before, or by a failed removal at, the key with index n.
  datatype End = Done | Canceled(n: nat) | Failed(n: nat)

  function Reached(end: End, keys: seq<string>): nat {
    match end
    case Done => |keys|
    case Canceled(n) => n
    case Failed(n) => n
  }

  // One kind of installed thing, collections or roles: which key each directory
  // holds, and the snapshot's records with their artifact checksums.
  class Shelf {
    var disk: map<string, string>
    var records: map<string, string>

    constructor (disk: map<string, string>, records: map<string, string>)
      ensures this.disk == disk && this.records == records
    {
      this.disk := disk;
      this.records := records;
    }

    // Every copy of one key, up to the first that cannot be removed.
    method RemoveCopies(copies: seq<Copy>) returns (ok: bool)
      modifies this`disk
      ensures ok ==> disk == old(disk) - DirsOf(copies)
      ensures Partly(old(disk), disk, copies)
      ensures ok <==> AllRemovable(copies)
    {
      ghost var before := disk;
      for i := 0 to |copies|
        invariant disk == before - DirsOf(copies[..i]) && AllRemovable(copies[..i])
      {
        if !copies[i].removable {
          assert copies[i] in copies;
          return false;
        }
        assert copies[..i + 1] == copies[..i] + [copies[i]];
        disk := disk - {copies[i].dir};
      }
      assert copies[..|copies|] == copies;
      ok := true;
    }

    // One unused key: its copies, then its record.
    method RemoveKey(key: string, copies: seq<Copy>) returns (ok: bool)
      modifies this
      ensures ok ==> disk == old(disk) - DirsOf(copies) && records == old(records) - {key}
      ensures !ok ==> Partly(old(disk), disk, copies) && records == old(records)
      ensures ok <==> AllRemovable(copies)
    {
      ok := RemoveCopies(copies);
      if ok { records := records - {key}; }
    }

    /** removeUnused and removeUnusedRoles, canceled before the key at index
        `cancelAt`. `gone` are the unused keys that were dealt with: a prefix of
        them in key order, and all of them when the pass is done. Nothing of any
        other key is touched, save some copies of the one a removal fails at. */
    method RemoveUnused(keys: seq<string>, byKey: Copies, reachable: set<string>, dry: bool, cancelAt: nat)
      returns (removed: nat, end: End, ghost gone: set<string>)
      requires Listing(keys, byKey)
      modifies this
      ensures Reached(end, keys) <= |keys| && gone == Among(keys[..Reached(end, keys)], Unused(byKey, reachable))
      ensures end.Done? ==> gone == Unused(byKey, reachable)
      ensures records == if dry then old(records) else old(records) - gone
      ensures !end.Failed? ==> removed == |gone| && disk == if dry then old(disk) else old(disk) - Dirs(byKey, gone)
      ensures end.Failed? ==> !dry && removed == |gone| + 1 && end.n < |keys| && keys[end.n] in Unused(byKey, reachable)
      // It comes to its end exactly when no cancellation is seen on the way and every
      // unused copy can be removed; a failure is the first, and before the cancellation.
      ensures end.Done? <==> |keys| <= cancelAt && (dry || AllGo(byKey, Unused(byKey, reachable)))
      ensures end.Canceled? ==> end.n == cancelAt
      ensures end.Failed? ==> end.n < cancelAt
      ensures dry || AllGo(byKey, gone)
      ensures end.Failed? ==>
                Partly(old(disk) - Dirs(byKey, gone), disk, byKey[keys[end.n]]) && !AllRemovable(byKey[keys[end.n]])
    {
      removed, gone := 0, {};
      ghost var unused, files, recorded := Unused(byKey, reachable), disk, records;
      assert Stage(files, recorded, byKey, gone, dry);
      for i := 0 to |keys|
        invariant gone == Among(keys[..i], unused) && removed == |gone| && i <= cancelAt
        invariant dry || AllGo(byKey, gone)
        invariant Stage(files, recorded, byKey, gone, dry)
      {
        var key := keys[i];
        if cancelAt <= i { return removed, Canceled(i), gone; }
        OneMoreKey(keys, byKey, unused, i);
        if key !in reachable {
          removed := removed + 1;
          if !dry {
            var ok := RemoveKey(key, byKey[key]);
            if !ok { return removed, Failed(i), gone; }
            StageGoesOn(files, recorded, byKey, gone, key);
          }
          gone := gone + {key};
        }
      }
      AllAmong(keys, byKey, unused);
      end := Done;
    }

    // The state after dealing with these unused keys.
    ghost predicate Stage(files: map<string, string>, recorded: map<string, string>, byKey: Copies, gone: set<string>,
                          dry: bool)
      reads this
    {
      && records == (if dry then recorded else recorded - gone)
      && disk == (if dry then files else files - Dirs(byKey, gone))
    }
  }

  lemma StageGoesOn(files: map<string, string>, recorded: map<string, string>, byKey: Copies, gone: set<string>,
                    key: string)
    requires key in byKey
    ensures files - Dirs(byKey, gone) - DirsOf(byKey[key]) == files - Dirs(byKey, gone + {key})
    ensures recorded - gone - {key} == recorded - (gone + {key})
  {
    DirsOneMore(byKey, gone, key);
  }

  lemma AllAmong(keys: seq<string>, byKey: Copies, unused: set<string>)
    requires Listing(keys, byKey) && unused <= byKey.Keys
    ensures Among(keys[..|keys|], unused) == unused
  {
    assert keys[..|keys|] == keys;
  }

  ghost predicate AllRemovable(copies: seq<Copy>) { forall c :: c in copies ==> c.removable }

  // Every copy of these keys can be removed.
  ghost predicate AllGo(byKey: Copies, keys: set<string>) {
    forall k :: k in keys && k in byKey ==> AllRemovable(byKey[k])
  }

  ghost predicate Partly(before: map<string, string>, after: map<string, string>, copies: seq<Copy>) {
    exists n: nat :: n <= |copies| && after == before - DirsOf(copies[..n])
  }

  lemma OneMoreKey(keys: seq<string>, byKey: Copies, unused: set<string>, i: nat)
    requires Listing(keys, byKey) && i < |keys|
    ensures keys[i] in byKey && keys[i] !in Among(keys[..i], unused)
    ensures Among(keys[..i + 1], unused) == Among(keys[..i], unused) + (if keys[i] in unused then {keys[i]} else {})
  {
    assert keys[i] in keys;
    assert keys[..i + 1] == keys[..i] + [keys[i]];
  }

  lemma DirsOneMore(byKey: Copies, gone: set<string>, key: string)
    requires key in byKey
    ensures Dirs(byKey, gone + {key}) == Dirs(byKey, gone) + DirsOf(byKey[key])
  {}

  // --------------------------------------------- what the removal means

  // Scanned directories hold what they were scanned as.
  ghost predicate Scanned(disk: map<string, string>, byKey: Copies) {
    forall k, c :: k in byKey && c in byKey[k] && c.dir in disk ==> disk[c.dir] == k
  }

  // Every directory with a scanned key was found.
  ghost predicate AllFound(disk: map<string, string>, byKey: Copies) {
    forall d :: d in disk && disk[d] in byKey ==> exists c :: c in byKey[disk[d]] && c.dir == d
  }

  /** Removing the directories of some unused keys removes no copy of any other
      key; removing those of all of them leaves no copy of an unused key. */
  lemma OnlyUnusedCopiesGo(disk: map<string, string>, byKey: Copies, reachable: set<string>, gone: set<string>)
    requires Scanned(disk, byKey) && gone <= Unused(byKey, reachable)
    ensures forall d :: d in disk && disk[d] !in gone ==> d in disk - Dirs(byKey, gone)
    ensures forall d :: d in disk && disk[d] in reachable ==> d in disk - Dirs(byKey, gone)
    ensures AllFound(disk, byKey) && gone == Unused(byKey, reachable) ==>
              forall d :: d in disk - Dirs(byKey, gone) ==> disk[d] !in Unused(byKey, reachable)
  {
    forall k, c | k in gone && k in byKey && c in byKey[k] ensures c.dir in disk ==> disk[c.dir] == k {}
  }

  // -------------------------------------------------------- the keep set

  // The artifacts of records that are not about to be removed.
  ghost function KeptShas(records: map<string, string>, byKey: Copies, reachable: set<string>): set<string> {
    set k | k in records && records[k] != "" && k !in Unused(byKey, reachable) :: records[k]
  }

  ghost function Warmed(warmed: map<string, string>): set<string> { set k | k in warmed :: warmed[k] }

  // InstalledArtifactSHAByKey, InstalledRoleArtifactSHAs: records with a checksum.
  function WithSha(records: map<string, string>): map<string, string> {
    map k | k in records && records[k] != "" :: records[k]
  }

  /** extractedKeepSet, ranging over its maps in any order. */
  method ExtractedKeepSet(records: map<string, string>, warmed: map<string, string>, byKey: Copies,
                          reachable: set<string>)
    returns (keep: set<string>)
    ensures keep == KeptShas(records, byKey, reachable) + Warmed(warmed)
  {
    var wouldRemove: set<string> := {};
    var scanned := byKey.Keys;
    while scanned != {}
      invariant scanned <= byKey.Keys && wouldRemove == (byKey.Keys - scanned) - reachable
    {
      var key :| key in scanned;
      if key !in reachable { wouldRemove := wouldRemove + {key}; }
      scanned := scanned - {key};
    }
    var shaByKey := WithSha(records);
    keep := KeepRest(shaByKey, wouldRemove);
    assert keep == KeptShas(records, byKey, reachable) by {
      forall sha ensures sha in keep <==> sha in KeptShas(records, byKey, reachable) {
        if sha in KeptShas(records, byKey, reachable) {
          var k :| k in records && records[k] != "" && k !in Unused(byKey, reachable) && records[k] == sha;
          assert k in shaByKey.Keys && shaByKey[k] == sha;
        }
      }
    }
    var left := warmed.Keys;
    ghost var first := keep;
    while left != {}
      invariant left <= warmed.Keys
      invariant forall sha :: sha in keep <==> sha in first || exists k :: k in warmed.Keys - left && warmed[k] == sha
    {
      var key :| key in left;
      keep := keep + {warmed[key]};
      left := left - {key};
    }
  }

  method KeepRest(shaByKey: map<string, string>, wouldRemove: set<string>) returns (keep: set<string>)
    ensures forall sha :: sha in keep <==> exists k :: k in shaByKey.Keys && k !in wouldRemove && shaByKey[k] == sha
  {
    keep := {};
    var left := shaByKey.Keys;
    while left != {}
      invariant left <= shaByKey.Keys
      invariant forall sha :: sha in keep <==>
                exists k :: k in shaByKey.Keys - left && k !in wouldRemove && shaByKey[k] == sha
    {
      var key :| key in left;
      if key !in wouldRemove { keep := keep + {shaByKey[key]}; }
      left := left - {key};
    }
  }

  // roleKeepSHAs
  method RoleKeepSHAs(records: map<string, string>, byName: Copies, reachable: set<string>) returns (keep: set<string>)
    ensures keep == KeptShas(records, byName, reachable)
  {
    var shas := WithSha(records);
    keep := {};
    var left := shas.Keys;
    while left != {}
      invariant left <= shas.Keys
      invariant forall sha :: sha in keep <==>
        exists k :: k in shas.Keys - left && k !in Unused(byName, reachable) && shas[k] == sha
    {
      var name :| name in left;
      if !(name in byName && name !in reachable) { keep := keep + {shas[name]}; }
      left := left - {name};
    }
    forall sha | sha in KeptShas(records, byName, reachable) ensures sha in keep {
      var k :| k in records && records[k] != "" && k !in Unused(byName, reachable) && records[k] == sha;
      assert k in shas.Keys && shas[k] == sha;
    }
  }

  /** The keep set does not depend on whether the unused records are still there:
      a dry run, which keeps them, computes the one a real run does. */
  lemma SameKeepSet(records: map<string, string>, byKey: Copies, reachable: set<string>)
    ensures KeptShas(records - Unused(byKey, reachable), byKey, reachable) == KeptShas(records, byKey, reachable)
  {
    var less := records - Unused(byKey, reachable);
    forall sha | sha in KeptShas(records, byKey, reachable) ensures sha in KeptShas(less, byKey, reachable) {
      var k :| k in records && records[k] != "" && k !in Unused(byKey, reachable) && records[k] == sha;
      assert k in less && less[k] == sha;
    }
  }

  // ------------------------------------------------------- a whole run

  // What one run works on.
  datatype Found = Found(keys: seq<string>, byKey: Copies, reachable: set<string>)

  // A removal is neither canceled nor meets a copy that cannot be removed.
  ghost predicate GoesThrough(f: Found, dry: bool, cancelAt: nat) {
    |f.keys| <= cancelAt && (dry || AllGo(f.byKey, Unused(f.byKey, f.reachable)))
  }

  // Nothing but unused keys' copies and records is gone.
  ghost predicate Spared(disk: map<string, string>, records: map<string, string>,
                         disk0: map<string, string>, records0: map<string, string>, f: Found)
  {
    && (forall d :: d in disk0 && d !in Dirs(f.byKey, Unused(f.byKey, f.reachable)) ==>
          d in disk && disk[d] == disk0[d])
    && (forall k :: k in records0 && k !in Unused(f.byKey, f.reachable) ==>
          k in records && records[k] == records0[k])
  }

  // However a removal ends, it spares what is not unused.
  lemma EndSpares(disk: map<string, string>, records: map<string, string>, disk0: map<string, string>,
                  records0: map<string, string>, f: Found, gone: set<string>)
    requires gone <= Unused(f.byKey, f.reachable)
    requires records == records0 || records == records0 - gone
    requires disk == disk0 || disk == disk0 - Dirs(f.byKey, gone) ||
             exists k :: k in Unused(f.byKey, f.reachable) && Partly(disk0 - Dirs(f.byKey, gone), disk, f.byKey[k])
    ensures Spared(disk, records, disk0, records0, f)
  {
    var unused := Unused(f.byKey, f.reachable);
    assert Dirs(f.byKey, gone) <= Dirs(f.byKey, unused);
    if k :| k in unused && Partly(disk0 - Dirs(f.byKey, gone), disk, f.byKey[k]) {
      var n: nat :| n <= |f.byKey[k]| && disk == disk0 - Dirs(f.byKey, gone) - DirsOf(f.byKey[k][..n]);
      forall d | d in DirsOf(f.byKey[k][..n]) ensures d in Dirs(f.byKey, unused) {
        var c :| c in f.byKey[k][..n] && c.dir == d;
        assert c in f.byKey[k];
      }
    }
  }

  class Cache {
    const collections: Shelf
    const roles: Shelf
    var extracted: set<string>
    const warmed: map<string, string>
    const contentRecorded: bool

    constructor (collections: Shelf, roles: Shelf, extracted: set<string>, warmed: map<string, string>,
                 contentRecorded: bool)
      requires collections != roles
      ensures this.collections == collections && this.roles == roles && this.extracted == extracted
      ensures this.warmed == warmed && this.contentRecorded == contentRecorded
    {
      this.collections := collections;
      this.roles := roles;
      this.extracted := extracted;
      this.warmed := warmed;
      this.contentRecorded := contentRecorded;
    }

    // Sweep: in name order, canceled before the entry at index `cancelAt`, going on
    // past entries that cannot be removed.
    method Sweep(planned: seq<string>, cancelAt: nat, stuck: set<string>) returns (swept: set<string>)
      requires forall i: nat, j: nat :: i < j < |planned| ==> planned[i] != planned[j]
      modifies this`extracted
      ensures swept == Removed(planned, cancelAt, stuck) && extracted == old(extracted) - swept
    {
      swept := {};
      var i := 0;
      while i < |planned|
        invariant i <= |planned| && i <= cancelAt
        invariant swept == Removed(planned[..i], cancelAt, stuck) && extracted == old(extracted) - swept
      {
        assert planned[..i + 1] == planned[..i] + [planned[i]];
        if cancelAt <= i {
          CutAt(planned, i, stuck);
          return;
        }
        if planned[i] !in stuck {
          swept := swept + {planned[i]};
          extracted := extracted - {planned[i]};
        }
        i := i + 1;
      }
      assert planned[..i] == planned;
    }

    // SweepPlan: the entries not kept, in name order; `listing` is the directory.
    method SweepPlan(keep: set<string>, listing: seq<string>) returns (planned: seq<string>)
      requires ListingOf(listing, extracted)
      ensures ListingOf(planned, extracted - keep)
    {
      planned := [];
      for i := 0 to |listing|
        invariant forall e :: e in planned <==> e in listing[..i] && e !in keep
        invariant forall j: nat, k: nat :: j < k < |planned| ==> planned[j] != planned[k]
      {
        assert listing[..i + 1] == listing[..i] + [listing[i]];
        if listing[i] !in keep {
          assert listing[i] !in planned;
          planned := planned + [listing[i]];
        }
      }
      assert listing[..|listing|] == listing;
    }

    // sweepExtractedStore: a dry run only plans.
    method SweepExtracted(c: Found, r: Found, dry: bool, listing: seq<string>, cancelAt: nat, stuck: set<string>)
      returns (planned: seq<string>, swept: set<string>)
      requires ListingOf(listing, extracted)
      modifies this`extracted
      ensures ListingOf(planned,
                Stale(old(extracted), contentRecorded, collections.records, roles.records, warmed, c, r))
      ensures swept == (if dry then {} else Removed(planned, cancelAt, stuck)) && extracted == old(extracted) - swept
    {
      planned, swept := [], {};
      if !contentRecorded { return; }
      var keep := ExtractedKeepSet(collections.records, warmed, c.byKey, c.reachable);
      var roleKeep := RoleKeepSHAs(roles.records, r.byKey, r.reachable);
      planned := SweepPlan(keep + roleKeep, listing);
      if !dry { swept := Sweep(planned, cancelAt, stuck); }
    }

    // Collections, then roles; the second only when the first came to its end.
    method RemoveBoth(c: Found, r: Found, dry: bool, cancelAt: nat, cancelRolesAt: nat) returns (removed: nat, ok: bool)
      requires collections != roles && Listing(c.keys, c.byKey) && Listing(r.keys, r.byKey)
      modifies collections, roles
      ensures ok <==> GoesThrough(c, dry, cancelAt) && GoesThrough(r, dry, cancelRolesAt)
      ensures ok ==> removed == |Unused(c.byKey, c.reachable)| + |Unused(r.byKey, r.reachable)|
      ensures Spared(collections.disk, collections.records, old(collections.disk), old(collections.records), c)
      ensures Spared(roles.disk, roles.records, old(roles.disk), old(roles.records), r)
      ensures dry ==> Same(collections.disk, collections.records, old(collections.disk), old(collections.records)) &&
                      Same(roles.disk, roles.records, old(roles.disk), old(roles.records))
      ensures ok && !dry ==>
                Cleaned(collections.disk, collections.records, old(collections.disk), old(collections.records), c)
      ensures ok && !dry ==> Cleaned(roles.disk, roles.records, old(roles.disk), old(roles.records), r)
    {
      var end, rolesEnd, removedRoles;
      ghost var gone, rolesGone;
      EndSpares(roles.disk, roles.records, roles.disk, roles.records, r, {});
      removed, end, gone := collections.RemoveUnused(c.keys, c.byKey, c.reachable, dry, cancelAt);
      EndSpares(collections.disk, collections.records, old(collections.disk), old(collections.records), c, gone);
      if !end.Done? { return removed, false; }
      removedRoles, rolesEnd, rolesGone := roles.RemoveUnused(r.keys, r.byKey, r.reachable, dry, cancelRolesAt);
      EndSpares(roles.disk, roles.records, old(roles.disk), old(roles.records), r, rolesGone);
      removed, ok := removed + removedRoles, rolesEnd.Done?;
    }

    /** cleanupWithState from the removals on: `cancelAt` and `cancelRolesAt` are
        the indices cancellation is seen at, `canceledLate` whether it is seen
        before the sweep, `cancelSweepAt` and `stuck` where the sweep is cut short
        and which entries it cannot remove. A run that gets past the removals
        removed exactly the unused keys' copies and records; one that does not
        sweeps nothing; a dry run changes nothing and plans what a real run plans;
        and what a real run sweeps is that plan up to the cancellation, but for the
        entries that would not go. */
    method Cleanup(c: Found, r: Found, dry: bool, cancelAt: nat, cancelRolesAt: nat, canceledLate: bool,
                   listing: seq<string>, cancelSweepAt: nat, stuck: set<string>)
      returns (removed: nat, ok: bool, planned: seq<string>, swept: set<string>)
      requires collections != roles && Listing(c.keys, c.byKey) && Listing(r.keys, r.byKey)
      requires ListingOf(listing, extracted)
      modifies this, collections, roles
      ensures ok <==> GoesThrough(c, dry, cancelAt) && GoesThrough(r, dry, cancelRolesAt) && !canceledLate
      ensures ok ==> removed == |Unused(c.byKey, c.reachable)| + |Unused(r.byKey, r.reachable)|
      ensures ok ==> ListingOf(planned,
                Stale(old(extracted), contentRecorded, old(collections.records), old(roles.records), warmed, c, r))
      ensures swept == (if ok && !dry then Removed(planned, cancelSweepAt, stuck) else {})
      ensures extracted == old(extracted) - swept
      ensures Spared(collections.disk, collections.records, old(collections.disk), old(collections.records), c)
      ensures Spared(roles.disk, roles.records, old(roles.disk), old(roles.records), r)
      ensures dry ==> Same(collections.disk, collections.records, old(collections.disk), old(collections.records)) &&
                      Same(roles.disk, roles.records, old(roles.disk), old(roles.records))
      ensures ok && !dry ==>
                Cleaned(collections.disk, collections.records, old(collections.disk), old(collections.records), c)
      ensures ok && !dry ==> Cleaned(roles.disk, roles.records, old(roles.disk), old(roles.records), r)
    {
      planned, swept := [], {};
      removed, ok := RemoveBoth(c, r, dry, cancelAt, cancelRolesAt);
      if !ok || canceledLate { return removed, false, planned, swept; }
      SamePlan(extracted, contentRecorded, collections.records, roles.records,
               old(collections.records), old(roles.records), warmed, c, r);
      planned, swept := SweepExtracted(c, r, dry, listing, cancelSweepAt, stuck);
    }
  }

  // Every element once, in some order.
  ghost predicate ListingOf(listing: seq<string>, s: set<string>) {
    && (forall e :: e in listing <==> e in s)
    && (forall i: nat, j: nat :: i < j < |listing| ==> listing[i] != listing[j])
  }

  // The planned entries that go: those before the cancellation that can be removed.
  function Removed(planned: seq<string>, cancelAt: nat, stuck: set<string>): set<string> {
    Elements(if cancelAt < |planned| then planned[..cancelAt] else planned) - stuck
  }

  function Elements(s: seq<string>): set<string> { set e | e in s }

  lemma CutAt(planned: seq<string>, i: nat, stuck: set<string>)
    requires i <= |planned|
    ensures Removed(planned, i, stuck) == Removed(planned[..i], i, stuck)
  {
    assert planned[..i][..i] == planned[..i];
    assert i == |planned| ==> planned[..i] == planned;
  }

  /** A sweep takes only what was planned, and all of it exactly when no entry before
      its end sees the cancellation and none of them refuses to go. */
  lemma SweptInFull(planned: seq<string>, cancelAt: nat, stuck: set<string>)
    requires forall i: nat, j: nat :: i < j < |planned| ==> planned[i] != planned[j]
    ensures Removed(planned, cancelAt, stuck) <= Elements(planned)
    ensures Removed(planned, cancelAt, stuck) == Elements(planned) <==>
            cancelAt >= |planned| && Elements(planned) !! stuck
  {
    if cancelAt < |planned| {
      assert planned[cancelAt] in Elements(planned);
      assert planned[cancelAt] !in planned[..cancelAt];
    }
    if x :| x in Elements(planned) && x in stuck { assert x !in Removed(planned, cancelAt, stuck); }
  }

  // What the extracted store holds for nobody.
  ghost function Stale(extracted: set<string>, contentRecorded: bool, records: map<string, string>,
                       roleRecords: map<string, string>, warmed: map<string, string>, c: Found, r: Found): set<string>
  {
    if !contentRecorded then {}
    else
      extracted -
      (KeptShas(records, c.byKey, c.reachable) + Warmed(warmed) + KeptShas(roleRecords, r.byKey, r.reachable))
  }

  // The records as they were, or without the unused ones.
  predicate Settled(now: map<string, string>, before: map<string, string>, f: Found) {
    now == before || now == before - Unused(f.byKey, f.reachable)
  }

  lemma SamePlan(extracted: set<string>, contentRecorded: bool,
                 records: map<string, string>, roleRecords: map<string, string>,
                 records0: map<string, string>, roleRecords0: map<string, string>,
                 warmed: map<string, string>, c: Found, r: Found)
    requires Settled(records, records0, c) && Settled(roleRecords, roleRecords0, r)
    ensures Stale(extracted, contentRecorded, records, roleRecords, warmed, c, r) ==
            Stale(extracted, contentRecorded, records0, roleRecords0, warmed, c, r)
  {
    SameKeepSet(records0, c.byKey, c.reachable);
    SameKeepSet(roleRecords0, r.byKey, r.reachable);
  }

  predicate Same(disk: map<string, string>, records: map<string, string>, disk0: map<string, string>,
                 records0: map<string, string>) {
    disk == disk0 && records == records0
  }

  // Everything unused is gone, nothing else.
  ghost predicate Cleaned(disk: map<string, string>, records: map<string, string>, disk0: map<string, string>,
                          records0: map<string, string>, f: Found) {
    && disk == disk0 - Dirs(f.byKey, Unused(f.byKey, f.reachable))
    && records == records0 - Unused(f.byKey, f.reachable)
  }

  // A record that outlives the run names this artifact.
  ghost predicate Names(records: map<string, string>, sha: string) {
    sha != "" && exists k :: k in records && records[k] == sha
  }

  /** The sweep drops an artifact exactly when neither a collection's nor a role's
      record that survives the run names it, nor a warmed one; and it drops
      nothing while no content was ever recorded. */
  lemma SweptExactlyWhenUnnamed(extracted: set<string>, contentRecorded: bool, records: map<string, string>,
                                roleRecords: map<string, string>, warmed: map<string, string>,
                                c: Found, r: Found, sha: string)
    ensures sha in Stale(extracted, contentRecorded, records, roleRecords, warmed, c, r) <==>
            contentRecorded && sha in extracted &&
            !Names(records - Unused(c.byKey, c.reachable), sha) &&
            !Names(roleRecords - Unused(r.byKey, r.reachable), sha) &&
            !exists k :: k in warmed && warmed[k] == sha
  {
    NamedIsKept(records, c.byKey, c.reachable, sha);
    NamedIsKept(roleRecords, r.byKey, r.reachable, sha);
  }

  lemma NamedIsKept(records: map<string, string>, byKey: Copies, reachable: set<string>, sha: string)
    ensures Names(records - Unused(byKey, reachable), sha) <==> sha in KeptShas(records, byKey, reachable)
  {
    var less := records - Unused(byKey, reachable);
    if sha in KeptShas(records, byKey, reachable) {
      var k :| k in records && records[k] != "" && k !in Unused(byKey, reachable) && records[k] == sha;
      assert k in less && less[k] == sha;
    }
  }
}
