/**
 What cleanup keeps (internal/galaxy/cleanup/reachable.go:25-322 and
 roles.go:188-201): worklist walks over the scanned index, from every project's
 roots, into one shared set.
 */
module Reachability {
  import opened CleanupScan
  import opened Closure
  import opened Wrappers

  predicate Admits(rules: Rules, constraint: string, copy: Copy) {
    var text := rules.normalize(constraint);
    text == "" || match rules.parse(text)
                  case None => true
                  case Some(range) => copy.parsed.Some? && rules.check(range, copy.parsed.value)
  }

  function Copies(w: Scan, fqdn: string): seq<Copy> { if fqdn in w.index then w.index[fqdn] else [] }

  function DepsOf(w: Scan, key: string): map<string, string> { if key in w.deps then w.deps[key] else map[] }

  function Keys(copies: seq<Copy>): (keys: seq<string>)
    ensures |keys| == |copies| && forall i: nat :: i < |copies| ==> keys[i] == copies[i].key
  {
    if copies == [] then [] else Keys(copies[..|copies| - 1]) + [copies[|copies| - 1].key]
  }

  // Some copy of this key satisfies the constraint on its name.
  predicate Chosen(w: Scan, fqdn: string, constraint: string, key: string) {
    exists i: nat ::
      i < |Copies(w, fqdn)| && Admits(w.rules, constraint, Copies(w, fqdn)[i]) && Copies(w, fqdn)[i].key == key
  }

  // One installed collection depends on another.
  predicate Edge(w: Scan, a: string, b: string) {
    exists d: string :: d in DepsOf(w, a) && Chosen(w, d, DepsOf(w, a)[d], b)
  }

  ghost function Needs(w: Scan): Relation { iset a: string, b: string | Edge(w, a, b) :: (a, b) }

  // The pin records this key, it is installed, and it is the named one.
  predicate PinnedKey(w: Scan, pin: seq<Pinned>, named: Option<(string, string)>, key: string) {
    && key in w.installed
    && exists i: nat :: i < |pin| && KeyOf(pin[i]) == key && Narrowed(pin[i], named)
  }

  predicate Narrowed(p: Pinned, named: Option<(string, string)>) {
    named.None? || (p.namespace, p.name) == named.value
  }

  // The installed record is from this repository, at the subdirectory or just below.
  predicate FromRepository(w: Scan, source: string, subdir: string, named: Option<(string, string)>, key: string) {
    && key in w.installed && key in w.records.sources
    && LiesIn(w.records, w.records.gitLocator(w.records.sources[key]), source, subdir)
    && (named.Some? ==> named.value.0 + "." + named.value.1 + "@" <= key)
  }

  predicate LiesIn(records: Records, loc: Option<(string, string)>, source: string, subdir: string) {
    loc.Some? && loc.value.0 == source && (loc.value.1 == subdir || records.parent(loc.value.1) == subdir)
  }

  predicate FromUrl(w: Scan, source: string, key: string) {
    key in w.installed && key in w.records.sources && w.records.urlLocator(w.records.sources[key]) == Some(source)
  }

  // The installed keys a requirement keeps: a pinned one's are the pin's.
  predicate RootKey(w: Scan, root: Root, key: string) {
    match root
    case Galaxy(fqdn, constraint) => Chosen(w, fqdn, constraint, key)
    case Git(source, version, subdir, named) =>
      if (source, version, subdir) in w.records.gitPins
      then PinnedKey(w, w.records.gitPins[(source, version, subdir)], named, key)
      else FromRepository(w, source, subdir, named, key)
    case Url(source) =>
      if source in w.records.urlPins then key in w.installed && KeyOf(w.records.urlPins[source]) == key
      else FromUrl(w, source, key)
  }

  predicate RoleEdge(byName: RolesByName, a: string, b: string) {
    a in byName && exists i: nat :: i < |byName[a]| && b in byName[a][i].deps
  }

  ghost function RoleNeeds(byName: RolesByName): Relation {
    iset a: string, b: string | RoleEdge(byName, a, b) :: (a, b)
  }

  // keepProjectRoles: the roles installed under this path.
  predicate KeptRole(byName: RolesByName, rolesPath: string, name: string) {
    rolesPath != "" && name in byName && exists i: nat :: i < |byName[name]| && byName[name][i].rolesDir == rolesPath
  }

  // The names a project starts the roles walk from.
  predicate RoleAsked(byName: RolesByName, p: Project, name: string) {
    name in RolesOf(p.file) || (p.file.RolesUnreadable? && KeptRole(byName, p.rolesPath, name))
  }

  class Walker {
    const w: Scan
    var reachable: set<string>
    var constraints: map<string, Option<int>>

    // The memo holds what parsing would say.
    ghost predicate Valid()
      reads this
    {
      forall text :: text in constraints ==> constraints[text] == w.rules.parse(text)
    }

    constructor (w: Scan)
      ensures Valid() && this.w == w && reachable == {}
    {
      this.w := w;
      reachable := {};
      constraints := map[];
    }

    /** selectInstalled, with the memo: the keys of the admitted copies, no others. */
    method SelectInstalled(fqdn: string, constraint: string) returns (keys: seq<string>)
      requires Valid()
      modifies this`constraints
      ensures Valid()
      ensures forall key :: key in keys <==> Chosen(w, fqdn, constraint, key)
      // An empty constraint, or one that cannot be parsed, admits every copy.
      ensures var text := w.rules.normalize(constraint);
              fqdn in w.index ==>
                if text == "" || w.rules.parse(text).None? then keys == Keys(w.index[fqdn])
                else forall key :: key in keys <==> exists i: nat ::
                       i < |w.index[fqdn]| && w.index[fqdn][i].key == key && w.index[fqdn][i].parsed.Some? &&
                       w.rules.check(w.rules.parse(text).value, w.index[fqdn][i].parsed.value)
      ensures fqdn !in w.index ==> keys == []
    {
      var items := Copies(w, fqdn);
      var text := w.rules.normalize(constraint);
      if items != [] && text != "" && text !in constraints {
        constraints := constraints[text := w.rules.parse(text)];
      }
      keys := [];
      for i := 0 to |items|
        invariant forall key :: key in keys <==>
          exists j: nat :: j < i && Admits(w.rules, constraint, items[j]) && items[j].key == key
        invariant |keys| <= i
        invariant text == "" || w.rules.parse(text).None? ==> keys == Keys(items[..i])
      {
        var all := text == "" || constraints[text].None?;
        assert items[..i + 1][..i] == items[..i];
        if all || (items[i].parsed.Some? && w.rules.check(constraints[text].value, items[i].parsed.value)) {
          keys := keys + [items[i].key];
        }
      }
      assert items[..|items|] == items;
    }

    // Everything one collection's recorded dependencies select, in any order.
    method FollowDeps(current: string) returns (next: seq<string>)
      requires Valid()
      modifies this`constraints
      ensures Valid() && Follows(Needs(w), reachable, current, next)
    {
      var deps := DepsOf(w, current);
      var pending := deps.Keys;
      next := [];
      while pending != {}
        invariant Valid() && pending <= deps.Keys
        invariant forall d: string, b: string {:trigger Chosen(w, d, deps[d], b)} ::
                    d in deps.Keys - pending && Chosen(w, d, deps[d], b) ==> b in reachable || b in next
        invariant forall b: string :: b in next ==> Edge(w, current, b)
      {
        var d :| d in pending;
        var keys := SelectInstalled(d, deps[d]);
        var queued := Unreached(keys);
        next := next + queued;
        pending := pending - {d};
      }
    }

    method Unreached(keys: seq<string>) returns (queued: seq<string>)
      ensures forall b: string :: b in queued <==> b in keys && b !in reachable
    {
      queued := [];
      for i := 0 to |keys|
        invariant forall b: string :: b in queued <==> b in keys[..i] && b !in reachable
      {
        if keys[i] !in reachable { queued := queued + [keys[i]]; }
      }
    }

    /** markReachable: what was reached so far, closed anew with one more key. */
    method MarkReachable(key: string, ghost start: set<string>)
      requires Valid() && IsClosure(Needs(w), start, reachable)
      modifies this
      ensures Valid() && IsClosure(Needs(w), start + {key}, reachable)
    {
      var queue := [key];
      ghost var rel, all := Needs(w), AllKeys(w) + {key} + reachable;
      ghost var wanted := start + {key};
      FrontierBegin(rel, start, reachable, queue);
      assert Elements(queue) == {key};
      while |queue| > 0
        invariant Valid() && Frontier(rel, wanted, reachable, queue)
        invariant reachable <= all && forall k: string :: k in queue ==> k in all
        decreases |all - reachable|, |queue|
      {
        var current := queue[0];
        if current in reachable {
          FrontierSkip(rel, wanted, reachable, queue);
          queue := queue[1..];
        } else {
          ghost var before, waiting := reachable, queue;
          assert all - (before + {current}) == all - before - {current};
          reachable := reachable + {current};
          var next := FollowDeps(current);
          FollowsInside(w, reachable, current, next);
          queue := queue[1..] + next;
          FrontierStep(rel, wanted, before, waiting, next);
        }
      }
      FrontierDone(rel, wanted, reachable);
    }

    // markCollectionRoots
    method MarkCollectionRoots(roots: seq<Root>, ghost start: set<string>) returns (ghost ended: set<string>)
      requires Valid() && IsClosure(Needs(w), start, reachable)
      modifies this
      ensures Valid() && IsClosure(Needs(w), ended, reachable)
      ensures forall key :: key in ended <==> key in start || Asked(w, roots, key)
    {
      ended := start;
      for i := 0 to |roots|
        invariant Valid() && IsClosure(Needs(w), ended, reachable)
        invariant forall key :: key in ended <==> key in start || Asked(w, roots[..i], key)
      {
        var keys;
        match roots[i] {
          case Galaxy(fqdn, constraint) => keys := SelectInstalled(fqdn, constraint);
          case Git(_, _, _, _) => keys := GitRootKeys(roots[i]);
          case Url(_) => keys := UrlRootKeys(roots[i]);
        }
        AskedOneMore(w, roots, i);
        ended := MarkAll(keys, ended);
      }
      assert roots[..|roots|] == roots;
    }

    /** gitRootKeys: a pin's installed collections; without a pin, whatever was
        installed from that directory of the repository. */
    method GitRootKeys(root: Root) returns (keys: seq<string>)
      requires root.Git?
      ensures forall key :: key in keys <==> RootKey(w, root, key)
      ensures forall key :: key in keys ==> key in w.installed
      ensures var at := (root.source, root.version, root.subdir);
              forall key :: key in w.installed && at in w.records.gitPins ==>
                (key in keys <==> exists i: nat ::
                   && i < |w.records.gitPins[at]| && KeyOf(w.records.gitPins[at][i]) == key
                   && (root.named.None? ||
                       root.named == Some((w.records.gitPins[at][i].namespace, w.records.gitPins[at][i].name))))
      ensures forall key :: key in w.installed && (root.source, root.version, root.subdir) !in w.records.gitPins ==>
                (key in keys <==>
                   && key in w.records.sources && w.records.gitLocator(w.records.sources[key]).Some?
                   && var found := w.records.gitLocator(w.records.sources[key]).value;
                      && found.0 == root.source && (found.1 == root.subdir || w.records.parent(found.1) == root.subdir)
                      && (root.named.None? || root.named.value.0 + "." + root.named.value.1 + "@" <= key))
    {
      if (root.source, root.version, root.subdir) in w.records.gitPins {
        keys := PinnedGitKeys(w.records.gitPins[(root.source, root.version, root.subdir)], root.named);
      } else {
        keys := InstalledSuch(key => FromRepository(w, root.source, root.subdir, root.named, key));
      }
    }

    method PinnedGitKeys(pin: seq<Pinned>, named: Option<(string, string)>) returns (keys: seq<string>)
      ensures forall key :: key in keys <==> PinnedKey(w, pin, named, key)
    {
      keys := [];
      for i := 0 to |pin|
        invariant forall key :: key in keys <==> PinnedKey(w, pin[..i], named, key)
      {
        ghost var before := keys;
        if Narrowed(pin[i], named) && KeyOf(pin[i]) in w.installed { keys := keys + [KeyOf(pin[i])]; }
        forall key ensures key in keys <==> PinnedKey(w, pin[..i + 1], named, key) {
          PinnedOneMore(w, pin, named, i, key);
        }
      }
      assert pin[..|pin|] == pin;
    }

    /** urlRootKeys: the pinned collection if it is installed; without a pin, whatever
        was installed from that URL. */
    method UrlRootKeys(root: Root) returns (keys: seq<string>)
      requires root.Url?
      ensures forall key :: key in keys <==> RootKey(w, root, key)
      ensures forall key :: key in keys ==> key in w.installed
      ensures forall key :: key in w.installed && root.source in w.records.urlPins ==>
                (key in keys <==> KeyOf(w.records.urlPins[root.source]) == key)
      ensures forall key :: key in w.installed && root.source !in w.records.urlPins ==>
                (key in keys <==>
                   key in w.records.sources && w.records.urlLocator(w.records.sources[key]) == Some(root.source))
    {
      if root.source in w.records.urlPins {
        var key := KeyOf(w.records.urlPins[root.source]);
        keys := if key in w.installed then [key] else [];
      } else {
        keys := InstalledSuch(key => FromUrl(w, root.source, key));
      }
    }

    // The installed keys a condition selects, in some order.
    method InstalledSuch(chosen: string -> bool) returns (keys: seq<string>)
      ensures forall key :: key in keys <==> key in w.installed && chosen(key)
    {
      keys := [];
      var left := w.installed;
      while left != {}
        invariant left <= w.installed
        invariant forall key :: key in keys <==> key in w.installed - left && chosen(key)
      {
        var key :| key in left;
        if chosen(key) { keys := keys + [key]; }
        left := left - {key};
      }
    }

    method MarkAll(keys: seq<string>, ghost start: set<string>) returns (ghost ended: set<string>)
      requires Valid() && IsClosure(Needs(w), start, reachable)
      modifies this
      ensures Valid() && IsClosure(Needs(w), ended, reachable)
      ensures forall key :: key in ended <==> key in start || key in keys
    {
      ended := start;
      for i := 0 to |keys|
        invariant Valid() && IsClosure(Needs(w), ended, reachable)
        invariant forall key :: key in ended <==> key in start || key in keys[..i]
      {
        MarkReachable(keys[i], ended);
        ended := ended + {keys[i]};
      }
    }
  }

  lemma PinnedOneMore(w: Scan, pin: seq<Pinned>, named: Option<(string, string)>, i: nat, key: string)
    requires i < |pin|
    ensures PinnedKey(w, pin[..i + 1], named, key) <==>
            PinnedKey(w, pin[..i], named, key) ||
            (key in w.installed && KeyOf(pin[i]) == key && Narrowed(pin[i], named))
  {
    var more, less := pin[..i + 1], pin[..i];
    assert more[i] == pin[i] && forall j: nat :: j < i ==> more[j] == less[j];
  }

  ghost function AllKeys(w: Scan): set<string> {
    set d, c | d in w.index && c in w.index[d] :: c.key
  }

  lemma FollowsInside(w: Scan, reached: set<string>, current: string, next: seq<string>)
    requires Follows(Needs(w), reached, current, next)
    ensures forall b: string :: b in next ==> b in AllKeys(w)
  {
    forall b: string | b in next ensures b in AllKeys(w) {
      assert (current, b) in Needs(w);
      var d: string :| d in DepsOf(w, current) && Chosen(w, d, DepsOf(w, current)[d], b);
      var i: nat :| i < |Copies(w, d)| && Copies(w, d)[i].key == b;
      assert Copies(w, d)[i] in w.index[d];
    }
  }

  // ----------------------------------------------------------- the roots

  ghost predicate Asked(w: Scan, roots: seq<Root>, key: string) {
    exists i: nat :: i < |roots| && RootKey(w, roots[i], key)
  }

  lemma AskedOneMore(w: Scan, roots: seq<Root>, i: nat)
    requires i < |roots|
    ensures forall key :: Asked(w, roots[..i + 1], key) <==> Asked(w, roots[..i], key) || RootKey(w, roots[i], key)
  {
    forall key ensures Asked(w, roots[..i + 1], key) <==> Asked(w, roots[..i], key) || RootKey(w, roots[i], key) {
      if RootKey(w, roots[i], key) { assert RootKey(w, roots[..i + 1][i], key); }
      if Asked(w, roots[..i], key) {
        var j: nat :| j < i && RootKey(w, roots[..i][j], key);
        assert RootKey(w, roots[..i + 1][j], key);
      }
    }
  }

  // ----------------------------------------------------------- the roles

  class RoleMarker {
    const byName: RolesByName
    var reachable: set<string>

    constructor (byName: RolesByName)
      ensures this.byName == byName && reachable == {}
    {
      this.byName := byName;
      reachable := {};
    }

    // The dependencies of every copy of a role, reached or not.
    method RoleDeps(name: string) returns (next: seq<string>)
      ensures forall b: string :: b in next <==> RoleEdge(byName, name, b)
    {
      next := [];
      if name in byName {
        var copies := byName[name];
        for i := 0 to |copies|
          invariant forall b: string :: b in next <==> exists j: nat :: j < i && b in copies[j].deps
        {
          next := next + copies[i].deps;
        }
      }
    }

    /** markReachableRoles: what was reached so far, closed anew with more roots. */
    method MarkReachableRoles(roots: seq<string>, ghost start: set<string>)
      requires IsClosure(RoleNeeds(byName), start, reachable)
      modifies this
      ensures IsClosure(RoleNeeds(byName), start + Elements(roots), reachable)
    {
      var queue := roots;
      ghost var rel, all := RoleNeeds(byName), AllRoleNames(byName) + Elements(roots) + reachable;
      ghost var wanted := start + Elements(roots);
      FrontierBegin(rel, start, reachable, queue);
      while |queue| > 0
        invariant Frontier(rel, wanted, reachable, queue)
        invariant reachable <= all && forall k: string :: k in queue ==> k in all
        decreases |all - reachable|, |queue|
      {
        var name := queue[0];
        if name in reachable {
          FrontierSkip(rel, wanted, reachable, queue);
          queue := queue[1..];
        } else {
          ghost var before, waiting := reachable, queue;
          assert all - (before + {name}) == all - before - {name};
          reachable := reachable + {name};
          var next := RoleDeps(name);
          RoleEdgesInside(byName, name);
          queue := queue[1..] + next;
          FrontierStep(rel, wanted, before, waiting, next);
        }
      }
      FrontierDone(rel, wanted, reachable);
    }

    // keepProjectRoles
    method KeepProjectRoles(rolesPath: string) returns (kept: seq<string>)
      ensures forall name :: name in kept <==> KeptRole(byName, rolesPath, name)
    {
      kept := [];
      if rolesPath == "" { return; }
      var pending := byName.Keys;
      while pending != {}
        invariant pending <= byName.Keys
        invariant forall name :: name in kept <==> name in byName.Keys - pending && KeptRole(byName, rolesPath, name)
      {
        var name :| name in pending;
        if exists i: nat :: i < |byName[name]| && byName[name][i].rolesDir == rolesPath {
          kept := kept + [name];
        }
        pending := pending - {name};
      }
    }
  }

  ghost function AllRoleNames(byName: RolesByName): set<string> {
    set a, c, b | a in byName && c in byName[a] && b in c.deps :: b
  }

  lemma RoleEdgesInside(byName: RolesByName, name: string)
    ensures forall b: string :: RoleEdge(byName, name, b) ==> b in AllRoleNames(byName)
  {
    forall b: string | RoleEdge(byName, name, b) ensures b in AllRoleNames(byName) {
      var i: nat :| i < |byName[name]| && b in byName[name][i].deps;
      assert byName[name][i] in byName[name];
    }
  }

  // ------------------------------------------------------- all projects

  ghost predicate Roots(w: Scan, projects: seq<Project>, key: string) {
    exists i: nat :: i < |projects| && From(w, projects, i, key)
  }

  ghost predicate RoleRoots(byName: RolesByName, projects: seq<Project>, name: string) {
    exists i: nat :: i < |projects| && RoleFrom(byName, projects, i, name)
  }

  ghost predicate StartsAt(w: Scan, projects: seq<Project>, start: set<string>) {
    forall key :: key in start <==> Roots(w, projects, key)
  }

  ghost predicate RolesStartAt(byName: RolesByName, projects: seq<Project>, start: set<string>) {
    forall name :: name in start <==> RoleRoots(byName, projects, name)
  }

  // What cleanup must keep: the least closed sets over every project's roots.
  ghost predicate KeysKept(w: Scan, projects: seq<Project>, keys: set<string>) {
    exists start: set<string> :: StartsAt(w, projects, start) && IsClosure(Needs(w), start, keys)
  }

  ghost predicate RolesKept(byName: RolesByName, projects: seq<Project>, roles: set<string>) {
    exists start: set<string> :: RolesStartAt(byName, projects, start) && IsClosure(RoleNeeds(byName), start, roles)
  }

  ghost predicate Kept(w: Scan, byName: RolesByName, projects: seq<Project>, keys: set<string>, roles: set<string>) {
    KeysKept(w, projects, keys) && RolesKept(byName, projects, roles)
  }

  datatype Outcome = Marked(keys: set<string>, roles: set<string>) | ScanError | RequirementsUnreadable

  // One project's role roots.
  method MarkProjectRoles(marker: RoleMarker, p: Project, ghost start: set<string>) returns (ghost ended: set<string>)
    requires IsClosure(RoleNeeds(marker.byName), start, marker.reachable)
    modifies marker
    ensures IsClosure(RoleNeeds(marker.byName), ended, marker.reachable)
    ensures forall name :: name in ended <==> name in start || RoleAsked(marker.byName, p, name)
  {
    ended := start;
    if p.file.RolesUnreadable? {
      var kept := marker.KeepProjectRoles(p.rolesPath);
      marker.MarkReachableRoles(kept, ended);
      ended := ended + Elements(kept);
    }
    marker.MarkReachableRoles(RolesOf(p.file), ended);
    ended := ended + Elements(RolesOf(p.file));
  }

  // Walking both kinds of roots of one project, after the ones before it.
  method MarkProject(walker: Walker, marker: RoleMarker, projects: seq<Project>, i: nat, ghost start: set<string>,
                     ghost roleStart: set<string>)
    returns (ghost ended: set<string>, ghost roleEnded: set<string>)
    requires walker.Valid() && i < |projects|
    requires StartsAt(walker.w, projects[..i], start) && IsClosure(Needs(walker.w), start, walker.reachable)
    requires RolesStartAt(marker.byName, projects[..i], roleStart) &&
              IsClosure(RoleNeeds(marker.byName), roleStart, marker.reachable)
    modifies walker, marker
    ensures walker.Valid()
    ensures StartsAt(walker.w, projects[..i + 1], ended) && IsClosure(Needs(walker.w), ended, walker.reachable)
    ensures RolesStartAt(marker.byName, projects[..i + 1], roleEnded) &&
              IsClosure(RoleNeeds(marker.byName), roleEnded, marker.reachable)
  {
    roleEnded := MarkProjectRoles(marker, projects[i], roleStart);
    RolesOneMore(marker.byName, projects, i, roleStart, roleEnded);
    ended := walker.MarkCollectionRoots(RootsOf(projects[i].file), start);
    RootsOneMore(walker.w, projects, i, start, ended);
  }

  /** buildReachable: first every project is scanned into one index, then every
      project's roots are walked against it. It fails exactly when some scan does, or
      else some project's requirements cannot be read; otherwise it has the least
      closed sets over all roots. */
  method BuildReachable(rules: Rules, records: Records, projects: seq<Project>)
    returns (r: Outcome, w: Scan, byName: RolesByName)
    ensures r.ScanError? <==> !forall i: nat :: i < |projects| ==> CanScan(projects[i])
    ensures r.RequirementsUnreadable? <==>
              !r.ScanError? && !forall i: nat :: i < |projects| ==> !projects[i].file.Unreadable?
    ensures r.Marked? ==> w.rules == rules && w.records == records && Indexed(Manifests(projects), w)
    ensures r.Marked? ==> RolesIndexed(FoundRoles(projects), byName)
    ensures r.Marked? ==> Kept(w, byName, projects, r.keys, r.roles)
  {
    var scanner := new Scanner();
    var scanned := scanner.ScanAll(projects);
    w := Scan(rules, scanner.index, scanner.deps, scanner.installed, records);
    byName := scanner.byName;
    if !scanned { return ScanError, w, byName; }
    r := MarkProjects(w, byName, projects);
  }

  // The second phase, over every project in the given order.
  method MarkProjects(w: Scan, byName: RolesByName, projects: seq<Project>) returns (r: Outcome)
    ensures r.Marked? || r.RequirementsUnreadable?
    ensures r.Marked? <==> forall i: nat :: i < |projects| ==> !projects[i].file.Unreadable?
    ensures r.Marked? ==> Kept(w, byName, projects, r.keys, r.roles)
  {
    var walker := new Walker(w);
    var marker := new RoleMarker(byName);
    ghost var start: set<string>, roleStart: set<string> := {}, {};
    for i := 0 to |projects|
      invariant walker.Valid() && walker.w == w && marker.byName == byName
      invariant fresh(walker) && fresh(marker)
      invariant StartsAt(w, projects[..i], start) && IsClosure(Needs(w), start, walker.reachable)
      invariant RolesStartAt(byName, projects[..i], roleStart) &&
                IsClosure(RoleNeeds(byName), roleStart, marker.reachable)
      invariant forall j: nat :: j < i ==> !projects[j].file.Unreadable?
    {
      if projects[i].file.Unreadable? { return RequirementsUnreadable; }
      start, roleStart := MarkProject(walker, marker, projects, i, start, roleStart);
    }
    assert projects[..|projects|] == projects;
    r := Marked(walker.reachable, marker.reachable);
  }

  // A project's own roots, by their keys and names.
  ghost predicate From(w: Scan, projects: seq<Project>, i: nat, key: string)
    requires i < |projects|
  {
    Asked(w, RootsOf(projects[i].file), key)
  }

  ghost predicate RoleFrom(byName: RolesByName, projects: seq<Project>, i: nat, name: string)
    requires i < |projects|
  {
    RoleAsked(byName, projects[i], name)
  }

  lemma RootsOneMore(w: Scan, projects: seq<Project>, i: nat, before: set<string>, after: set<string>)
    requires i < |projects| && StartsAt(w, projects[..i], before)
    requires forall key :: key in after <==> key in before || Asked(w, RootsOf(projects[i].file), key)
    ensures StartsAt(w, projects[..i + 1], after)
  {
    var more, less := projects[..i + 1], projects[..i];
    assert more[i] == projects[i] && forall j: nat :: j < i ==> more[j] == less[j];
    forall key ensures key in after <==> Roots(w, more, key) {
      if From(w, projects, i, key) { assert From(w, more, i, key); }
      if j: nat :| j < i && From(w, less, j, key) { assert From(w, more, j, key); }
      if j: nat :| j <= i && From(w, more, j, key) {
        assert if j < i then From(w, less, j, key) else From(w, projects, i, key);
      }
    }
  }

  lemma RolesOneMore(byName: RolesByName, projects: seq<Project>, i: nat, before: set<string>, after: set<string>)
    requires i < |projects| && RolesStartAt(byName, projects[..i], before)
    requires forall name :: name in after <==> name in before || RoleAsked(byName, projects[i], name)
    ensures RolesStartAt(byName, projects[..i + 1], after)
  {
    var more, less := projects[..i + 1], projects[..i];
    assert more[i] == projects[i] && forall j: nat :: j < i ==> more[j] == less[j];
    forall name ensures name in after <==> RoleRoots(byName, more, name) {
      if RoleFrom(byName, projects, i, name) { assert RoleFrom(byName, more, i, name); }
      if j: nat :| j < i && RoleFrom(byName, less, j, name) { assert RoleFrom(byName, more, j, name); }
      if j: nat :| j <= i && RoleFrom(byName, more, j, name) {
        assert if j < i then RoleFrom(byName, less, j, name) else RoleFrom(byName, projects, i, name);
      }
    }
  }

  /** The order in which projects are read does not matter, nor how often one is
      recorded: the same projects keep the same keys and roles. */
  lemma OrderDoesNotMatter(w: Scan, byName: RolesByName, a: seq<Project>, b: seq<Project>,
                           keysA: set<string>, rolesA: set<string>, keysB: set<string>, rolesB: set<string>)
    requires forall p :: p in a <==> p in b
    requires Kept(w, byName, a, keysA, rolesA) && Kept(w, byName, b, keysB, rolesB)
    ensures keysA == keysB && rolesA == rolesB
  {
    var sa: set<string> :| StartsAt(w, a, sa) && IsClosure(Needs(w), sa, keysA);
    var sb: set<string> :| StartsAt(w, b, sb) && IsClosure(Needs(w), sb, keysB);
    SameRoots(w, byName, a, b);
    SameRoots(w, byName, b, a);
    assert sa == sb;
    ClosureIsUnique(Needs(w), sa, keysA, keysB);
    var ra: set<string> :| RolesStartAt(byName, a, ra) && IsClosure(RoleNeeds(byName), ra, rolesA);
    var rb: set<string> :| RolesStartAt(byName, b, rb) && IsClosure(RoleNeeds(byName), rb, rolesB);
    assert ra == rb;
    ClosureIsUnique(RoleNeeds(byName), ra, rolesA, rolesB);
  }

  lemma SameRoots(w: Scan, byName: RolesByName, a: seq<Project>, b: seq<Project>)
    requires forall p :: p in a ==> p in b
    ensures forall key :: Roots(w, a, key) ==> Roots(w, b, key)
    ensures forall name :: RoleRoots(byName, a, name) ==> RoleRoots(byName, b, name)
  {
    forall key | Roots(w, a, key) ensures Roots(w, b, key) {
      var i: nat :| i < |a| && From(w, a, i, key);
      assert a[i] in a;
      var j: nat :| j < |b| && b[j] == a[i];
      assert From(w, b, j, key);
    }
    forall name | RoleRoots(byName, a, name) ensures RoleRoots(byName, b, name) {
      var i: nat :| i < |a| && RoleFrom(byName, a, i, name);
      assert a[i] in a;
      var j: nat :| j < |b| && b[j] == a[i];
      assert RoleFrom(byName, b, j, name);
    }
  }

  // Some project needs this collection: every closed set that holds all their roots
  // has it.
  ghost predicate Needed(w: Scan, projects: seq<Project>, key: string) {
    forall s: set<string> {:trigger Closed(Needs(w), s)} ::
      Closed(Needs(w), s) && (forall k :: Roots(w, projects, k) ==> k in s) ==> key in s
  }

  ghost predicate RoleNeeded(byName: RolesByName, projects: seq<Project>, name: string) {
    forall s: set<string> {:trigger Closed(RoleNeeds(byName), s)} ::
      Closed(RoleNeeds(byName), s) && (forall n :: RoleRoots(byName, projects, n) ==> n in s) ==> name in s
  }

  /** What is kept is exactly what some project needs. */
  lemma KeptIsNeeded(w: Scan, byName: RolesByName, projects: seq<Project>, keys: set<string>, roles: set<string>)
    requires Kept(w, byName, projects, keys, roles)
    ensures forall key :: key in keys <==> Needed(w, projects, key)
    ensures forall name :: name in roles <==> RoleNeeded(byName, projects, name)
  {
    var start: set<string> :| StartsAt(w, projects, start) && IsClosure(Needs(w), start, keys);
    forall key | key in keys ensures Needed(w, projects, key) {
      forall s: set<string> | Closed(Needs(w), s) && (forall k :: Roots(w, projects, k) ==> k in s) ensures key in s {
        assert start <= s;
      }
    }
    assert Closed(Needs(w), keys);
    var roleStart: set<string> :|
      RolesStartAt(byName, projects, roleStart) && IsClosure(RoleNeeds(byName), roleStart, roles);
    forall name | name in roles ensures RoleNeeded(byName, projects, name) {
      forall s: set<string> | Closed(RoleNeeds(byName), s) && (forall n :: RoleRoots(byName, projects, n) ==> n in s)
        ensures name in s
      {
        assert roleStart <= s;
      }
    }
    assert Closed(RoleNeeds(byName), roles);
  }

  /** Each project's own roots, and what they need, are kept: a project can only
      add to what the others keep. */
  lemma EveryProjectIsServed(w: Scan, byName: RolesByName, projects: seq<Project>, keys: set<string>,
                             roles: set<string>, i: nat, key: string)
    requires Kept(w, byName, projects, keys, roles) && i < |projects|
    ensures From(w, projects, i, key) ==> key in keys
    ensures forall b :: key in keys && Edge(w, key, b) ==> b in keys
  {
    var start: set<string> :| StartsAt(w, projects, start) && IsClosure(Needs(w), start, keys);
    forall b | key in keys && Edge(w, key, b) ensures b in keys {
      assert (key, b) in Needs(w);
    }
  }

  // ------------------------------------------------- the same, spelled out

  // The set has every copy that one of these requirements admits.
  ghost predicate AdmittedIn(w: Scan, roots: seq<Root>, s: set<string>) {
    && (forall fqdn: string, constraint: string, copy: Copy ::
          Galaxy(fqdn, constraint) in roots && fqdn in w.index && copy in w.index[fqdn] ==>
            (Admits(w.rules, constraint, copy) ==> copy.key in s))
    && (forall root: Root, key: string :: root in roots && !root.Galaxy? && RootKey(w, root, key) ==> key in s)
  }

  ghost predicate RootsIn(w: Scan, file: Requirements, s: set<string>) {
    file.Readable? || file.RolesUnreadable? ==> AdmittedIn(w, file.roots, s)
  }

  // The set has every copy that a recorded dependency of a member admits.
  ghost predicate DepsIn(w: Scan, s: set<string>) {
    forall key: string, d: string, copy: Copy ::
      key in s && key in w.deps && d in w.deps[key] && d in w.index && copy in w.index[d] ==>
        (Admits(w.rules, w.deps[key][d], copy) ==> copy.key in s)
  }

  ghost predicate RolesIn(byName: RolesByName, p: Project, s: set<string>) {
    && (p.file.Readable? ==> forall name: string :: name in p.file.roles ==> name in s)
    && (p.file.RolesUnreadable? && p.rolesPath != "" ==>
          forall name: string, copy: RoleCopy ::
            name in byName && copy in byName[name] && copy.rolesDir == p.rolesPath ==> name in s)
  }

  ghost predicate RoleDepsIn(byName: RolesByName, s: set<string>) {
    forall name: string, copy: RoleCopy, d: string ::
      name in s && name in byName && copy in byName[name] && d in copy.deps ==> d in s
  }

  lemma ClosedIsDepsIn(w: Scan, s: set<string>)
    ensures Closed(Needs(w), s) <==> DepsIn(w, s)
  {
    if Closed(Needs(w), s) {
      forall key: string, d: string, copy: Copy |
        key in s && key in w.deps && d in w.deps[key] && d in w.index && copy in w.index[d] &&
        Admits(w.rules, w.deps[key][d], copy)
        ensures copy.key in s
      {
        var i: nat :| i < |w.index[d]| && w.index[d][i] == copy;
        assert Copies(w, d)[i].key == copy.key;
        assert Chosen(w, d, DepsOf(w, key)[d], copy.key);
        assert (key, copy.key) in Needs(w);
      }
    }
    if DepsIn(w, s) {
      forall a: string, b: string | a in s && Edge(w, a, b) ensures b in s {
        var d: string :| d in DepsOf(w, a) && Chosen(w, d, DepsOf(w, a)[d], b);
        var i: nat :|
          i < |Copies(w, d)| && Admits(w.rules, DepsOf(w, a)[d], Copies(w, d)[i]) && Copies(w, d)[i].key == b;
        assert Copies(w, d)[i] in w.index[d];
      }
    }
  }

  lemma RootsAreRootsIn(w: Scan, file: Requirements, s: set<string>)
    ensures (forall key :: Asked(w, RootsOf(file), key) ==> key in s) <==> RootsIn(w, file, s)
  {
    forall root: Root, key: string | root.Galaxy?
      ensures RootKey(w, root, key) <==> exists copy: Copy ::
                root.fqdn in w.index && copy in w.index[root.fqdn] && copy.key == key &&
                Admits(w.rules, root.constraint, copy)
    {
      if RootKey(w, root, key) {
        var i: nat :| i < |Copies(w, root.fqdn)| && Copies(w, root.fqdn)[i].key == key &&
          Admits(w.rules, root.constraint, Copies(w, root.fqdn)[i]);
        assert Copies(w, root.fqdn)[i] in w.index[root.fqdn];
      }
      if copy: Copy :| root.fqdn in w.index && copy in w.index[root.fqdn] && copy.key == key &&
                       Admits(w.rules, root.constraint, copy) {
        var i: nat :| i < |w.index[root.fqdn]| && w.index[root.fqdn][i] == copy;
        assert Copies(w, root.fqdn)[i] == copy;
      }
    }
    forall root: Root, key: string | root in RootsOf(file) && RootKey(w, root, key)
      ensures Asked(w, RootsOf(file), key)
    {
      var i: nat :| i < |RootsOf(file)| && RootsOf(file)[i] == root;
      assert RootKey(w, RootsOf(file)[i], key);
    }
  }

  /** The collections kept are the least set in which every readable project finds the
      copies its requirements admit, and every member the copies its recorded
      dependencies admit. */
  lemma KeysKeptAreLeast(w: Scan, projects: seq<Project>, keys: set<string>)
    requires KeysKept(w, projects, keys)
    ensures DepsIn(w, keys) && forall p: Project :: p in projects ==> RootsIn(w, p.file, keys)
    ensures forall s: set<string> ::
              DepsIn(w, s) && (forall p: Project :: p in projects ==> RootsIn(w, p.file, s)) ==> keys <= s
  {
    var start: set<string> :| StartsAt(w, projects, start) && IsClosure(Needs(w), start, keys);
    ClosedIsDepsIn(w, keys);
    forall p: Project | p in projects ensures RootsIn(w, p.file, keys) {
      var i: nat :| i < |projects| && projects[i] == p;
      assert forall key :: Asked(w, RootsOf(p.file), key) ==> From(w, projects, i, key);
      RootsAreRootsIn(w, p.file, keys);
    }
    forall s: set<string> | DepsIn(w, s) && (forall p: Project :: p in projects ==> RootsIn(w, p.file, s))
      ensures keys <= s
    {
      ClosedIsDepsIn(w, s);
      forall key | key in start ensures key in s {
        var i: nat :| i < |projects| && From(w, projects, i, key);
        assert projects[i] in projects;
        RootsAreRootsIn(w, projects[i].file, s);
      }
    }
  }

  lemma ClosedIsRoleDepsIn(byName: RolesByName, s: set<string>)
    ensures Closed(RoleNeeds(byName), s) <==> RoleDepsIn(byName, s)
  {
    if Closed(RoleNeeds(byName), s) {
      forall name: string, copy: RoleCopy, d: string |
        name in s && name in byName && copy in byName[name] && d in copy.deps
        ensures d in s
      {
        var i: nat :| i < |byName[name]| && byName[name][i] == copy;
        assert RoleEdge(byName, name, d);
        assert (name, d) in RoleNeeds(byName);
      }
    }
    if RoleDepsIn(byName, s) {
      forall a: string, b: string | a in s && RoleEdge(byName, a, b) ensures b in s {
        var i: nat :| i < |byName[a]| && b in byName[a][i].deps;
        assert byName[a][i] in byName[a];
      }
    }
  }

  lemma RoleRootsAreRolesIn(byName: RolesByName, p: Project, s: set<string>)
    ensures (forall name :: RoleAsked(byName, p, name) ==> name in s) <==> RolesIn(byName, p, s)
  {
    forall name: string, copy: RoleCopy | name in byName && copy in byName[name] && copy.rolesDir == p.rolesPath &&
        p.rolesPath != ""
      ensures KeptRole(byName, p.rolesPath, name)
    {
      var i: nat :| i < |byName[name]| && byName[name][i] == copy;
      assert byName[name][i].rolesDir == p.rolesPath;
    }
    if RolesIn(byName, p, s) {
      forall name | RoleAsked(byName, p, name) ensures name in s {
        if KeptRole(byName, p.rolesPath, name) {
          var i: nat :| i < |byName[name]| && byName[name][i].rolesDir == p.rolesPath;
          assert byName[name][i] in byName[name];
        }
      }
    }
  }

  /** The roles kept are the least set that has every role a project lists, every role
      under the roles path of a project whose list cannot be read, and whatever any
      installed copy of a member depends on. */
  lemma RolesKeptAreLeast(byName: RolesByName, projects: seq<Project>, roles: set<string>)
    requires RolesKept(byName, projects, roles)
    ensures RoleDepsIn(byName, roles) && forall p: Project :: p in projects ==> RolesIn(byName, p, roles)
    ensures forall s: set<string> ::
              RoleDepsIn(byName, s) && (forall p: Project :: p in projects ==> RolesIn(byName, p, s)) ==> roles <= s
  {
    var start: set<string> :| RolesStartAt(byName, projects, start) && IsClosure(RoleNeeds(byName), start, roles);
    ClosedIsRoleDepsIn(byName, roles);
    forall p: Project | p in projects ensures RolesIn(byName, p, roles) {
      var i: nat :| i < |projects| && projects[i] == p;
      assert forall name :: RoleAsked(byName, p, name) ==> RoleFrom(byName, projects, i, name);
      RoleRootsAreRolesIn(byName, p, roles);
    }
    forall s: set<string> | RoleDepsIn(byName, s) && (forall p: Project :: p in projects ==> RolesIn(byName, p, s))
      ensures roles <= s
    {
      ClosedIsRoleDepsIn(byName, s);
      forall name | name in start ensures name in s {
        var i: nat :| i < |projects| && RoleFrom(byName, projects, i, name);
        assert projects[i] in projects;
        RoleRootsAreRolesIn(byName, projects[i], s);
      }
    }
  }
}
