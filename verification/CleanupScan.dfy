/**
 What cleanup reads before it decides anything: every recorded project's workspace
 and roles in one index, the first phase of buildReachable
 (internal/galaxy/cleanup/reachable.go:43-55 and scan.go:105-160).
 */
module CleanupScan {
  import opened Wrappers

  // A copy on disk; its version may not be a semantic one.
  datatype Copy = Copy(key: string, fqdn: string, parsed: Option<int>)

  // Constraint texts are normalized, then parsed, then checked; all opaque.
  datatype Rules = Rules(normalize: string -> string, parse: string -> Option<int>, check: (int, int) -> bool)

  // A collection as a pin records it.
  datatype Pinned = Pinned(namespace: string, name: string, version: string)

  function KeyOf(p: Pinned): string { p.namespace + "." + p.name + "@" + p.version }

  // What the snapshot records: each installed key's source, and the pins of git and
  // URL requirements. Reading a locator, and the parent of a subdirectory, with the
  // top as "", are opaque.
  datatype Records = Records(
    sources: map<string, string>,
    gitPins: map<(string, string, string), seq<Pinned>>,
    urlPins: map<string, Pinned>,
    gitLocator: string -> Option<(string, string)>,
    urlLocator: string -> Option<string>,
    parent: string -> string)

  // What the scan of every project's workspace found, and what is on record.
  datatype Scan = Scan(
    rules: Rules,
    index: map<string, seq<Copy>>,
    deps: map<string, map<string, string>>,
    installed: set<string>,
    records: Records)

  // A requirement: a Galaxy one by name and constraint, a git repository's directory,
  // perhaps narrowed to a named collection, or a URL.
  datatype Root =
    | Galaxy(fqdn: string, constraint: string)
    | Git(source: string, version: string, subdir: string, named: Option<(string, string)>)
    | Url(source: string)

  // An installed role's directory and the names it recorded as dependencies.
  datatype RoleCopy = RoleCopy(rolesDir: string, deps: seq<string>)

  type RolesByName = map<string, seq<RoleCopy>>

  // A collection's manifest on disk, and what scanning a project's collections and
  // roles gives; a workspace that is not there has nothing.
  datatype Manifest = Manifest(copy: Copy, deps: map<string, string>)

  datatype Workspace = Scanned(found: seq<Manifest>) | ScanFailed

  datatype RoleScan = RolesScanned(found: seq<(string, RoleCopy)>) | RoleScanFailed

  datatype Project = Project(workspace: Workspace, roleScan: RoleScan, file: Requirements, rolesPath: string)

  // An unreadable roles list keeps the project's roles; any other unreadable file
  // ends the cleanup.
  datatype Requirements =
    | Missing
    | Unreadable
    | Readable(roots: seq<Root>, roles: seq<string>)
    | RolesUnreadable(roots: seq<Root>)

  function RootsOf(file: Requirements): seq<Root> {
    match file
    case Readable(roots, _) => roots
    case RolesUnreadable(roots) => roots
    case _ => []
  }

  function RolesOf(file: Requirements): seq<string> {
    match file
    case Readable(_, roles) => roles
    case _ => []
  }

  // ------------------------------------------------------- the scan

  predicate CanScan(p: Project) { p.workspace.Scanned? && p.roleScan.RolesScanned? }

  // Every manifest and role found, project by project.
  function Manifests(projects: seq<Project>): seq<Manifest> {
    if projects == [] then []
    else
      var last := projects[|projects| - 1].workspace;
      Manifests(projects[..|projects| - 1]) + if last.Scanned? then last.found else []
  }

  function FoundRoles(projects: seq<Project>): seq<(string, RoleCopy)> {
    if projects == [] then []
    else
      var last := projects[|projects| - 1].roleScan;
      FoundRoles(projects[..|projects| - 1]) + if last.RolesScanned? then last.found else []
  }

  // The dependencies the last manifest of this key has.
  ghost predicate LastDeps(found: seq<Manifest>, key: string, deps: map<string, string>) {
    exists i: nat :: i < |found| && found[i].copy.key == key && found[i].deps == deps && NoneAfter(found, i, key)
  }

  predicate NoneAfter(found: seq<Manifest>, i: nat, key: string) {
    forall j: nat :: i < j < |found| ==> found[j].copy.key != key
  }

  ghost predicate HasCopy(found: seq<Manifest>, copy: Copy) { exists i: nat :: i < |found| && found[i].copy == copy }

  ghost predicate HasKey(found: seq<Manifest>, key: string) { exists i: nat :: i < |found| && found[i].copy.key == key }

  // The index has every copy under its name, no others; a key's dependencies are the
  // ones scanned last.
  ghost predicate IndexHolds(found: seq<Manifest>, index: map<string, seq<Copy>>,
                             deps: map<string, map<string, string>>, installed: set<string>)
  {
    && (forall f: string, c: Copy :: f in index && c in index[f] <==> c.fqdn == f && HasCopy(found, c))
    && (forall k: string :: k in installed <==> HasKey(found, k))
    && deps.Keys == installed
    && (forall k: string :: k in deps ==> LastDeps(found, k, deps[k]))
  }

  ghost predicate Indexed(found: seq<Manifest>, w: Scan) { IndexHolds(found, w.index, w.deps, w.installed) }

  ghost predicate RolesIndexed(found: seq<(string, RoleCopy)>, byName: RolesByName) {
    forall n: string, c: RoleCopy :: n in byName && c in byName[n] <==> (n, c) in found
  }

  // The maps the scan fills.
  class Scanner {
    var index: map<string, seq<Copy>>
    var deps: map<string, map<string, string>>
    var installed: set<string>
    var byName: RolesByName

    constructor ()
      ensures IndexHolds([], index, deps, installed) && RolesIndexed([], byName)
    {
      index, deps, installed, byName := map[], map[], {}, map[];
    }

    // scanCollectionDir's three writes.
    method AddManifest(m: Manifest, ghost found: seq<Manifest>)
      requires IndexHolds(found, index, deps, installed)
      modifies this`index, this`deps, this`installed
      ensures IndexHolds(found + [m], index, deps, installed)
    {
      var f, key := m.copy.fqdn, m.copy.key;
      ghost var before, depsBefore, installedBefore := index, deps, installed;
      index := index[f := (if f in index then index[f] else []) + [m.copy]];
      deps := deps[key := m.deps];
      installed := installed + {key};
      IndexOneMore(found, m, before, depsBefore, installedBefore);
    }

    method AddRole(name: string, copy: RoleCopy, ghost found: seq<(string, RoleCopy)>)
      requires RolesIndexed(found, byName)
      modifies this`byName
      ensures RolesIndexed(found + [(name, copy)], byName)
    {
      byName := byName[name := (if name in byName then byName[name] else []) + [copy]];
    }

    // scanProjectWorkspace
    method ScanWorkspace(p: Project, ghost found: seq<Manifest>) returns (ok: bool)
      requires IndexHolds(found, index, deps, installed)
      modifies this`index, this`deps, this`installed
      ensures ok == p.workspace.Scanned?
      ensures ok ==> IndexHolds(found + p.workspace.found, index, deps, installed)
    {
      if p.workspace.ScanFailed? { return false; }
      var ms := p.workspace.found;
      assert found + ms[..0] == found;
      for i := 0 to |ms|
        invariant IndexHolds(found + ms[..i], index, deps, installed)
      {
        assert found + ms[..i + 1] == found + ms[..i] + [ms[i]];
        AddManifest(ms[i], found + ms[..i]);
      }
      assert ms[..|ms|] == ms;
      ok := true;
    }

    // scanProjectRoles
    method ScanRoles(p: Project, ghost found: seq<(string, RoleCopy)>) returns (ok: bool)
      requires RolesIndexed(found, byName)
      modifies this`byName
      ensures ok == p.roleScan.RolesScanned?
      ensures ok ==> RolesIndexed(found + p.roleScan.found, byName)
    {
      if p.roleScan.RoleScanFailed? { return false; }
      var rs := p.roleScan.found;
      assert found + rs[..0] == found;
      for i := 0 to |rs|
        invariant RolesIndexed(found + rs[..i], byName)
      {
        assert found + rs[..i + 1] == found + rs[..i] + [rs[i]];
        AddRole(rs[i].0, rs[i].1, found + rs[..i]);
      }
      assert rs[..|rs|] == rs;
      ok := true;
    }

    /** The first phase: every project's collections and roles, in one index. */
    method ScanAll(projects: seq<Project>) returns (ok: bool)
      requires IndexHolds([], index, deps, installed) && RolesIndexed([], byName)
      modifies this
      ensures ok <==> forall i: nat :: i < |projects| ==> CanScan(projects[i])
      ensures ok ==> IndexHolds(Manifests(projects), index, deps, installed)
      ensures ok ==> RolesIndexed(FoundRoles(projects), byName)
    {
      for i := 0 to |projects|
        invariant IndexHolds(Manifests(projects[..i]), index, deps, installed)
        invariant RolesIndexed(FoundRoles(projects[..i]), byName)
        invariant forall j: nat :: j < i ==> CanScan(projects[j])
      {
        assert projects[..i + 1][..i] == projects[..i];
        ok := ScanWorkspace(projects[i], Manifests(projects[..i]));
        if !ok { return; }
        ok := ScanRoles(projects[i], FoundRoles(projects[..i]));
        if !ok { return; }
      }
      assert projects[..|projects|] == projects;
      ok := true;
    }
  }

  lemma FoundOneMore(found: seq<Manifest>, m: Manifest)
    ensures forall c: Copy :: HasCopy(found + [m], c) <==> HasCopy(found, c) || c == m.copy
    ensures forall k: string :: HasKey(found + [m], k) <==> HasKey(found, k) || k == m.copy.key
  {
    var more := found + [m];
    assert more[|found|] == m && forall i: nat :: i < |found| ==> more[i] == found[i];
    forall c: Copy ensures HasCopy(more, c) <==> HasCopy(found, c) || c == m.copy {
      if i: nat :| i < |found| && found[i].copy == c { assert more[i].copy == c; }
    }
    forall k: string ensures HasKey(more, k) <==> HasKey(found, k) || k == m.copy.key {
      if i: nat :| i < |found| && found[i].copy.key == k { assert more[i].copy.key == k; }
    }
  }

  lemma DepsOneMore(found: seq<Manifest>, m: Manifest, key: string, deps: map<string, string>)
    requires LastDeps(found, key, deps) && key != m.copy.key
    ensures LastDeps(found + [m], key, deps)
  {
    var i: nat :| i < |found| && found[i].copy.key == key && found[i].deps == deps && NoneAfter(found, i, key);
    var more := found + [m];
    assert more[i] == found[i] && NoneAfter(more, i, key);
  }

  lemma IndexOneMore(found: seq<Manifest>, m: Manifest, index: map<string, seq<Copy>>,
                     deps: map<string, map<string, string>>, installed: set<string>)
    requires IndexHolds(found, index, deps, installed)
    ensures var f := m.copy.fqdn;
            IndexHolds(found + [m], index[f := (if f in index then index[f] else []) + [m.copy]],
                       deps[m.copy.key := m.deps], installed + {m.copy.key})
  {
    FoundOneMore(found, m);
    var more, after := found + [m], deps[m.copy.key := m.deps];
    assert after.Keys == installed + {m.copy.key};
    forall k: string | k in after ensures LastDeps(more, k, after[k]) {
      if k == m.copy.key {
        assert more[|found|] == m && NoneAfter(more, |found|, k);
      } else {
        DepsOneMore(found, m, k, deps[k]);
      }
    }
  }
}
