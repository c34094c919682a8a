/**
 The incremental re-solve of internal/galaxy/collections/resolve.go: the part of
 the last snapshot that unchanged roots reach is spliced with a fresh solve of
 the changed roots. The shape of that solve's graph comes from solve.go.
 */
module IncrementalResolve {
  import opened CollectionKeys
  import opened Wrappers

  // A snapshot entry's source, and the collection rebuilt from it.
  datatype Source = NoSource | Server(url: string) | Locator(text: string, git: bool, pinned: bool)
  datatype ResolvedEntry = ResolvedEntry(version: string, source: Source)
  datatype Collection = Collection(fqdn: string, version: string, source: Source)

  datatype Root = Root(fqdn: string, constraint: string)

  // What a released version declares, and which versions satisfy which
  // constraint; both are fixed for the two solves being spliced.
  datatype World = World(needs: map<Key, map<string, string>>, satisfies: set<(string, string)>)
  {
    function Needs(k: Key): map<string, string> { if k in needs then needs[k] else map[] }

    predicate Sat(version: string, constraint: string) { (version, constraint) in satisfies }
  }

  type Resolved = map<string, Collection>
  type Entries = map<string, ResolvedEntry>

  // helpers.SplitFQDN accepts it: two non-empty parts around one dot.
  predicate ValidFqdn(fqdn: string) {
    && PlainFqdn(fqdn)
    && exists i: nat :: 0 < i < |fqdn| - 1 && fqdn[i] == '.' && '.' !in fqdn[..i] && '.' !in fqdn[i + 1..]
  }

  // collectionFromResolvedEntry.
  function FromEntry(server: string, fqdn: string, entry: ResolvedEntry): (r: Option<Collection>)
    ensures r.Some? ==> r.value.fqdn == fqdn && r.value.version == entry.version
    ensures r.Some? ==> entry.version != "" && PlainFqdn(fqdn)
  {
    if entry.version == "" || !ValidFqdn(fqdn) then None
    else match entry.source
      case Locator(_, _, pinned) => if pinned then Some(Collection(fqdn, entry.version, entry.source)) else None
      case NoSource => Some(Collection(fqdn, entry.version, Server(server)))
      case Server(_) => Some(Collection(fqdn, entry.version, entry.source))
  }

  // setResolvedAll: what the snapshot records of a collection; a source that is empty
  // is none.
  function Recorded(col: Collection): ResolvedEntry {
    ResolvedEntry(col.version, if col.source == Server("") then NoSource else col.source)
  }

  /** A recorded collection is rebuilt as it was: with its locator if that is pinned,
      with its server if it has one, and with the run's server if it has none; one
      whose locator is not pinned is not rebuilt. */
  lemma RecordedIsRebuilt(server: string, f: string, col: Collection)
    requires ValidFqdn(f) && col.fqdn == f && col.version != ""
    ensures col.source.Locator? ==>
              FromEntry(server, f, Recorded(col)) == if col.source.pinned then Some(col) else None
    ensures col.source.Server? && col.source.url != "" ==> FromEntry(server, f, Recorded(col)) == Some(col)
    ensures col.source == Server("") || col.source == NoSource ==>
              FromEntry(server, f, Recorded(col)) == Some(col.(source := Server(server)))
    ensures FromEntry(server, f, Recorded(col).(version := "")) == None
  {}

  // ------------------------------------------------ what a solution is

  ghost function Versions(resolved: Resolved): map<string, string> {
    map f | f in resolved :: resolved[f].version
  }

  ghost function EntryVersions(entries: Entries): map<string, string> {
    map f | f in entries :: entries[f].version
  }

  // The node is the resolved version of its collection.
  ghost predicate Agrees(versions: map<string, string>, k: Key) {
    k.Key? && k.fqdn in versions && versions[k.fqdn] == k.version
  }

  // The node's edges all end at nodes.
  ghost predicate Ends(g: Graph, k: Key) {
    forall d: Key :: d in Deps(g, k) ==> d in g
  }

  ghost predicate Closed(g: Graph) {
    forall k: Key {:trigger Ends(g, k)} :: k in g ==> Ends(g, k)
  }

  // Resolved entries and graph nodes name the same keys, one version per
  // collection, and every edge ends at a node.
  ghost predicate Structured(versions: map<string, string>, g: Graph) {
    && (forall k: Key :: k in g ==> Agrees(versions, k))
    && (forall f: string :: f in versions ==> PlainFqdn(f) && versions[f] != "" && Key(f, versions[f]) in g)
    && Closed(g)
  }

  // A node's edges are exactly what its version declares, each to a version
  // that satisfies the declared constraint.
  ghost predicate NodeMeets(w: World, versions: map<string, string>, g: Graph, k: Key)
    requires k in g
  {
    && (forall f: string :: f in w.Needs(k) ==>
          f in versions && w.Sat(versions[f], w.Needs(k)[f]) && Key(f, versions[f]) in g[k])
    && (forall d: Key :: d in g[k] ==> d.Key? && d.fqdn in w.Needs(k))
  }

  ghost predicate RootMet(w: World, versions: map<string, string>, r: Root) {
    r.fqdn in versions && w.Sat(versions[r.fqdn], r.constraint)
  }

  ghost predicate Solves(w: World, roots: seq<Root>, versions: map<string, string>, g: Graph) {
    && Structured(versions, g)
    && (forall k: Key {:trigger NodeMeets(w, versions, g, k)} :: k in g ==> NodeMeets(w, versions, g, k))
    && (forall r: Root :: r in roots ==> RootMet(w, versions, r))
  }

  // ---------------------------------------- the graph a solve hands over

  ghost predicate Distinct(s: seq<Key>) {
    forall i: nat, j: nat :: i < j < |s| ==> s[i] != s[j]
  }

  ghost predicate DistinctEdges(g: Graph) {
    forall k: Key {:trigger Distinct(g[k])} :: k in g ==> Distinct(g[k])
  }

  // Where a resolved collection comes from: its discovery pin, else the server the
  // solve bound it to, else the one its root names, else the first.
  datatype Context = Context(pins: map<string, Source>, bindings: map<string, string>, sources: map<string, string>,
                             serverOf: string -> string, first: string)

  // stampResolvedSource and sourceFor.
  function Stamp(c: Context, f: string): Source {
    if f in c.pins then c.pins[f]
    else if f in c.bindings then Server(c.bindings[f])
    else if f in c.sources && c.sources[f] != "" then Server(c.serverOf(c.sources[f]))
    else Server(c.first)
  }

  // keys are the resolved keys of the named collections, each once.
  ghost predicate ListsEdges(versions: map<string, string>, names: set<string>, keys: seq<Key>) {
    && (forall d: string :: d in names ==> d in versions && Key(d, versions[d]) in keys)
    && (forall k: Key :: k in keys ==> Agrees(versions, k) && k.fqdn in names)
    && Distinct(keys)
  }

  // A parent and all it depends on are resolved.
  ghost predicate Named(versions: map<string, string>, deps: map<string, set<string>>, f: string)
    requires f in deps
  {
    f in versions && forall d: string :: d in deps[f] ==> d in versions
  }

  // The graph so far holds the edge lists of the parents in `seen`, no other.
  ghost predicate HoldsEdges(versions: map<string, string>, deps: map<string, set<string>>, seen: set<string>, g: Graph)
    requires seen <= deps.Keys
  {
    && (forall f: string {:trigger Named(versions, deps, f)} :: f in seen ==> Named(versions, deps, f))
    && (forall k: Key :: k in g ==> Agrees(versions, k) && k.fqdn in seen && ListsEdges(versions, deps[k.fqdn], g[k]))
    && (forall f: string :: f in seen && f in versions ==> Key(f, versions[f]) in g)
  }

  // The inner loop of buildGraphFromDeps: one parent's dependency keys, in any
  // order.
  method DependencyKeys(versions: map<string, string>, names: set<string>) returns (ok: bool, keys: seq<Key>)
    ensures ok <==> forall d: string :: d in names ==> d in versions
    ensures ok ==> ListsEdges(versions, names, keys)
  {
    keys := [];
    var left := names;
    while left != {}
      invariant left <= names && ListsEdges(versions, names - left, keys)
    {
      var d :| d in left;
      if d !in versions { return false, []; }
      assert Key(d, versions[d]) !in keys;
      keys := keys + [Key(d, versions[d])];
      left := left - {d};
    }
    assert names - left == names;
    ok := true;
  }

  /** buildGraphFromDeps, whatever order the map is ranged over in: it fails
      exactly when a parent or a dependency was not resolved. */
  method BuildGraphFromDeps(versions: map<string, string>, deps: map<string, set<string>>) returns (ok: bool, g: Graph)
    ensures ok <==> forall f: string :: f in deps ==> Named(versions, deps, f)
    ensures ok ==> HoldsEdges(versions, deps, deps.Keys, g)
  {
    g := map[];
    var left := deps.Keys;
    while left != {}
      invariant left <= deps.Keys
      invariant HoldsEdges(versions, deps, deps.Keys - left, g)
    {
      var f :| f in left;
      if f !in versions {
        assert !Named(versions, deps, f);
        return false, map[];
      }
      var named, keys := DependencyKeys(versions, deps[f]);
      if !named {
        assert !Named(versions, deps, f);
        return false, map[];
      }
      g := g[Key(f, versions[f]) := keys];
      assert Named(versions, deps, f);
      left := left - {f};
    }
    assert deps.Keys - left == deps.Keys;
    ok := true;
  }

  // ensureGraphNodes: every resolved collection becomes a node.
  method EnsureGraphNodes(versions: map<string, string>, g0: Graph) returns (g: Graph)
    ensures forall k: Key :: k in g <==> k in g0 || Agrees(versions, k)
    ensures forall k: Key :: k in g ==> g[k] == Deps(g0, k)
  {
    g := g0;
    var left := versions.Keys;
    while left != {}
      invariant left <= versions.Keys
      invariant forall k: Key :: k in g <==> k in g0 || (Agrees(versions, k) && k.fqdn !in left)
      invariant forall k: Key :: k in g ==> g[k] == Deps(g0, k)
    {
      var f :| f in left;
      var k := Key(f, versions[f]);
      if k !in g { g := g[k := []]; }
      left := left - {f};
    }
  }

  // The resolved collections, stamped; fails on a name that is no collection's.
  method StampResolved(versions: map<string, string>, c: Context) returns (ok: bool, resolved: Resolved)
    ensures ok <==> forall f: string :: f in versions ==> ValidFqdn(f)
    ensures ok ==> resolved == map f | f in versions :: Collection(f, versions[f], Stamp(c, f))
  {
    resolved := map[];
    var left := versions.Keys;
    while left != {}
      invariant left <= versions.Keys
      invariant forall f: string :: f in versions && f !in left ==> ValidFqdn(f)
      invariant resolved == map f | f in versions && f !in left :: Collection(f, versions[f], Stamp(c, f))
    {
      var f :| f in left;
      if !ValidFqdn(f) { return false, map[]; }
      resolved := resolved[f := Collection(f, versions[f], Stamp(c, f))];
      left := left - {f};
    }
    ok := true;
  }

  // The solver's edges as sets, parents without any left out.
  method DependencySets(edges: map<string, seq<string>>) returns (deps: map<string, set<string>>)
    ensures deps == map f | f in edges && edges[f] != [] :: Elems(edges[f])
  {
    deps := map[];
    var left := edges.Keys;
    while left != {}
      invariant left <= edges.Keys
      invariant deps == map f | f in edges && f !in left && edges[f] != [] :: Elems(edges[f])
    {
      var f :| f in left;
      if edges[f] != [] { deps := deps[f := Elems(edges[f])]; }
      left := left - {f};
    }
  }

  function Elems(s: seq<string>): set<string> { set x | x in s }

  // The solver's answer names resolved collections only, and a parent's edges, if
  // there are any, are between resolved collections.
  ghost predicate Answers(versions: map<string, string>, edges: map<string, seq<string>>) {
    && (forall f: string :: f in versions ==> ValidFqdn(f))
    && (forall f: string :: f in edges && edges[f] != [] ==> f in versions)
    && (forall f: string, d: string :: f in edges && d in edges[f] ==> d in versions)
  }

  /** solverResultToResolvedGraph: the collections are the solver's versions, each
      with its source; nodes and collections name the same keys, every edge ends at
      a node, a node's edges are the ones the solver answered with, and none of them
      is there twice, however often the answer repeats it. It fails exactly on a name
      that is no collection's and on an edge from or to what was not resolved. */
  method SolverResultToGraph(versions: map<string, string>, edges: map<string, seq<string>>, c: Context)
    returns (ok: bool, resolved: Resolved, g: Graph)
    requires forall f: string :: f in versions ==> versions[f] != ""
    ensures ok <==> Answers(versions, edges)
    ensures ok ==> resolved.Keys == versions.Keys
    ensures ok ==> forall f: string :: f in versions ==> resolved[f].fqdn == f && resolved[f].version == versions[f]
    // A pin decides, whatever else names the collection; then the solve's binding, then
    // what its root names; only the rest comes from the first server.
    ensures ok ==> forall f: string :: f in versions && f in c.pins ==> resolved[f].source == c.pins[f]
    ensures ok ==> forall f: string :: f in versions && f !in c.pins && f in c.bindings ==>
                     resolved[f].source == Server(c.bindings[f])
    ensures ok ==> forall f: string ::
                     f in versions && f !in c.pins && f !in c.bindings && f in c.sources && c.sources[f] != "" ==>
                       resolved[f].source == Server(c.serverOf(c.sources[f]))
    ensures ok ==> forall f: string ::
                     f in versions && f !in c.pins && f !in c.bindings && (f in c.sources ==> c.sources[f] == "") ==>
                       resolved[f].source == Server(c.first)
    ensures ok ==> Versions(resolved) == versions && Structured(versions, g) && DistinctEdges(g)
    ensures ok ==> forall f: string, h: string :: f in versions && h in versions ==>
                     (Key(h, versions[h]) in g[Key(f, versions[f])] <==> f in edges && h in edges[f])
  {
    g := map[];
    ok, resolved := StampResolved(versions, c);
    if !ok { return; }
    assert Versions(resolved) == versions;
    var deps := DependencySets(edges);
    ok, g := BuildGraphFromDeps(versions, deps);
    assert ok <==> Answers(versions, edges) by { NamedAnswers(versions, edges, deps); }
    if ok {
      ghost var g0 := g;
      g := EnsureGraphNodes(versions, g);
      GraphOfAnswer(versions, edges, deps, g0, g);
    }
  }

  lemma NamedAnswers(versions: map<string, string>, edges: map<string, seq<string>>, deps: map<string, set<string>>)
    requires forall f: string :: f in versions ==> ValidFqdn(f)
    requires deps == map f | f in edges && edges[f] != [] :: Elems(edges[f])
    ensures (forall f: string :: f in deps ==> Named(versions, deps, f)) <==> Answers(versions, edges)
  {
    if forall f: string :: f in deps ==> Named(versions, deps, f) {
      forall f: string, d: string | f in edges && d in edges[f] ensures d in versions {
        assert f in deps && d in deps[f];
      }
      forall f: string | f in edges && edges[f] != [] ensures f in versions { assert f in deps; }
    }
    if Answers(versions, edges) {
      forall f: string | f in deps ensures Named(versions, deps, f) {}
    }
  }

  lemma GraphOfAnswer(versions: map<string, string>, edges: map<string, seq<string>>, deps: map<string, set<string>>,
                      g0: Graph, g: Graph)
    requires forall f: string :: f in versions ==> ValidFqdn(f) && versions[f] != ""
    requires deps == map f | f in edges && edges[f] != [] :: Elems(edges[f])
    requires HoldsEdges(versions, deps, deps.Keys, g0)
    requires forall k: Key :: k in g <==> k in g0 || Agrees(versions, k)
    requires forall k: Key :: k in g ==> g[k] == Deps(g0, k)
    ensures Structured(versions, g) && DistinctEdges(g)
    ensures forall f: string, h: string :: f in versions && h in versions ==>
              (Key(h, versions[h]) in g[Key(f, versions[f])] <==> f in edges && h in edges[f])
  {
    forall k: Key | k in g ensures Ends(g, k) && Distinct(g[k]) {
      if k in g0 { assert ListsEdges(versions, deps[k.fqdn], g0[k]); }
    }
    forall f: string, h: string | f in versions && h in versions
      ensures Key(h, versions[h]) in g[Key(f, versions[f])] <==> f in edges && h in edges[f]
    {
      var k := Key(f, versions[f]);
      if k in g0 { assert ListsEdges(versions, deps[f], g0[k]); }
    }
  }

  // -------------------------------------------- keys reached from roots

  ghost predicate ClosedUnder(g: Graph, s: set<Key>) {
    forall k: Key {:trigger Followed(g, s, k)} :: k in s ==> Followed(g, s, k)
  }

  ghost predicate Contains(s: set<Key>, keys: seq<Key>) {
    forall k: Key :: k in keys ==> k in s
  }

  ghost predicate Followed(g: Graph, s: set<Key>, k: Key) {
    forall d: Key :: d in Deps(g, k) ==> d in s
  }

  // No larger than any closed set that holds the roots.
  ghost predicate Least(g: Graph, roots: seq<Key>, visited: set<Key>) {
    forall s: set<Key> {:trigger ClosedUnder(g, s)} :: Contains(s, roots) && ClosedUnder(g, s) ==> visited <= s
  }

  // Every dependency the graph names is in `all`.
  ghost predicate Universe(g: Graph, all: set<Key>) {
    forall k: Key {:trigger Followed(g, all, k)} :: Followed(g, all, k)
  }

  lemma SomeUniverse(g: Graph, roots: set<Key>) returns (all: set<Key>)
    ensures roots <= all && Universe(g, all)
  {
    all := roots + set k, i | k in g && 0 <= i < |g[k]| :: g[k][i];
    forall k: Key ensures Followed(g, all, k) {
      forall d: Key | d in Deps(g, k) ensures d in all {
        var i: nat :| i < |g[k]| && g[k][i] == d;
      }
    }
  }

  // One dependency of a key already visited is visited too.
  lemma LeastGrows(g: Graph, roots: seq<Key>, visited: set<Key>, key: Key, dep: Key)
    requires Least(g, roots, visited) && key in visited && dep in Deps(g, key)
    ensures Least(g, roots, visited + {dep})
  {
    forall s: set<Key> | Contains(s, roots) && ClosedUnder(g, s) ensures visited + {dep} <= s {
      assert Followed(g, s, key);
    }
  }

  // The inner loop: queue whatever dependency of `key` is new.
  method VisitDeps(g: Graph, ghost roots: seq<Key>, ghost all: set<Key>, key: Key, visited0: set<Key>, queue0: seq<Key>)
    returns (visited: set<Key>, queue: seq<Key>)
    requires Least(g, roots, visited0) && key in visited0 && visited0 <= all && Contains(visited0, queue0) &&
              Universe(g, all)
    ensures Least(g, roots, visited) && visited0 <= visited <= all
    ensures Contains(visited, queue) && Followed(g, visited, key)
    ensures queue0 <= queue && forall k: Key :: k in visited && k !in visited0 ==> k in queue
    ensures visited == visited0 ==> queue == queue0
  {
    visited, queue := visited0, queue0;
    var deps := Deps(g, key);
    assert Followed(g, all, key);
    for i := 0 to |deps|
      invariant Least(g, roots, visited) && visited0 <= visited <= all
      invariant Contains(visited, queue) && Contains(visited, deps[..i])
      invariant queue0 <= queue && forall k: Key :: k in visited && k !in visited0 ==> k in queue
      invariant visited == visited0 ==> queue == queue0
    {
      var dep := deps[i];
      assert deps[..i + 1] == deps[..i] + [dep];
      if dep !in visited {
        LeastGrows(g, roots, visited, key, dep);
        visited, queue := visited + {dep}, queue + [dep];
      }
    }
    assert deps[..|deps|] == deps;
  }

  // The roots, each queued once.
  method SeedQueue(roots: seq<Key>) returns (visited: set<Key>, queue: seq<Key>)
    ensures forall k: Key :: k in visited <==> k in roots
    ensures forall k: Key :: k in queue <==> k in roots
  {
    visited, queue := {}, [];
    for i := 0 to |roots|
      invariant forall k: Key :: k in visited <==> k in roots[..i]
      invariant forall k: Key :: k in queue <==> k in roots[..i]
    {
      assert roots[..i + 1] == roots[..i] + [roots[i]];
      if roots[i] !in visited {
        visited, queue := visited + {roots[i]}, queue + [roots[i]];
      }
    }
    assert roots[..|roots|] == roots;
  }

  // Every visited key that is not queued any more has been followed.
  ghost predicate Explored(g: Graph, visited: set<Key>, queue: seq<Key>) {
    forall k: Key {:trigger Followed(g, visited, k)} :: k in visited && k !in queue ==> Followed(g, visited, k)
  }

  lemma ExploredGrows(g: Graph, before: set<Key>, waiting: seq<Key>, visited: set<Key>, queue: seq<Key>)
    requires waiting != [] && Explored(g, before, waiting) && before <= visited && Followed(g, visited, waiting[0])
    requires waiting[1..] <= queue && forall k: Key :: k in visited && k !in before ==> k in queue
    ensures Explored(g, visited, queue)
  {
    forall k: Key | k in visited && k !in queue ensures Followed(g, visited, k) {
      assert waiting == [waiting[0]] + waiting[1..];
      if k != waiting[0] {
        assert k in before && k !in waiting;
        assert Followed(g, before, k);
      }
    }
  }

  /** collectGraphKeysFromKeys: the least set that holds the roots and is closed
      under the graph's edges, cycles and missing nodes included. */
  method CollectGraphKeys(g: Graph, roots: seq<Key>) returns (visited: set<Key>)
    ensures Contains(visited, roots) && ClosedUnder(g, visited) && Least(g, roots, visited)
  {
    var queue;
    visited, queue := SeedQueue(roots);
    ghost var all := SomeUniverse(g, visited);
    while |queue| > 0
      invariant Contains(visited, roots) && Contains(visited, queue) && visited <= all
      invariant Explored(g, visited, queue) && Least(g, roots, visited)
      decreases |all - visited|, |queue|
    {
      ghost var before, waiting := visited, queue;
      assert queue == [queue[0]] + queue[1..];
      visited, queue := VisitDeps(g, roots, all, queue[0], visited, queue[1..]);
      ExploredGrows(g, before, waiting, visited, queue);
      if visited != before {
        SmallerSet(all - visited, all - before);
      }
    }
  }

  lemma SmallerSet(a: set<Key>, b: set<Key>)
    requires a < b
    ensures |a| < |b|
  {
    assert b == a + (b - a);
    assert |b| == |a| + |b - a|;
  }

  // ------------------------------------------------- the preserved part

  // The key of an unchanged root at its snapshot version.
  function RootKey(entries: Entries, fqdn: string): Key
    requires fqdn in entries
  {
    Key(fqdn, entries[fqdn].version)
  }

  /** preservedRootKeys: fails exactly when some unchanged root has no version
      in the snapshot. */
  method PreservedRootKeys(roots: seq<Root>, entries: Entries) returns (ok: bool, keys: seq<Key>)
    ensures ok <==> forall r: Root :: r in roots ==> r.fqdn in entries && entries[r.fqdn].version != ""
    ensures ok ==> forall r: Root :: r in roots ==> RootKey(entries, r.fqdn) in keys
    ensures ok ==> forall k: Key :: k in keys ==> exists r: Root :: r in roots && k == RootKey(entries, r.fqdn)
  {
    keys := [];
    for i := 0 to |roots|
      invariant forall r: Root :: r in roots[..i] ==>
                r.fqdn in entries && entries[r.fqdn].version != "" && RootKey(entries, r.fqdn) in keys
      invariant forall k: Key :: k in keys ==> exists r: Root :: r in roots[..i] && k == RootKey(entries, r.fqdn)
    {
      var r := roots[i];
      assert roots[..i + 1] == roots[..i] + [r];
      if r.fqdn !in entries || entries[r.fqdn].version == "" { return false, []; }
      ghost var before := keys;
      keys := keys + [RootKey(entries, r.fqdn)];
      assert r in roots[..i + 1];
    }
    assert roots[..|roots|] == roots;
    ok := true;
  }

  ghost predicate HoldsRoots(entries: Entries, roots: seq<Root>, s: set<Key>) {
    forall r: Root :: r in roots ==> r.fqdn in entries && RootKey(entries, r.fqdn) in s
  }

  // A snapshot entry that can be rebuilt, at the version the key names.
  predicate Usable(server: string, entries: Entries, k: Key) {
    && k.Key? && k.fqdn in entries && entries[k.fqdn].version == k.version
    && FromEntry(server, k.fqdn, entries[k.fqdn]).Some?
  }

  // resolved holds the snapshot's collection for each of these keys, nothing else.
  ghost predicate Rebuilt(server: string, entries: Entries, keys: set<Key>, resolved: Resolved) {
    && (forall k: Key {:trigger Usable(server, entries, k)} :: k in keys ==>
          Usable(server, entries, k) && k.fqdn in resolved)
    && (forall f: string :: f in resolved ==>
          f in entries && Key(f, entries[f].version) in keys && FromEntry(server, f, entries[f]) == Some(resolved[f]))
  }

  /** buildPreservedSnapshot, whatever order the keys are ranged over in: the
      part of the snapshot the unchanged roots reach. It trusts nothing about
      the snapshot: a key it keeps has a graph entry and a matching resolved
      entry, and it fails exactly when one of them is missing or does not match. */
  method BuildPreservedSnapshot(server: string, roots: seq<Root>, entries: Entries, snap: Graph)
    returns (ok: bool, resolved: Resolved, g: Graph, ghost kept: set<Key>)
    ensures ok ==> g == map k | k in kept :: Deps(snap, k)
    ensures ok ==> kept <= snap.Keys && ClosedUnder(snap, kept) && Rebuilt(server, entries, kept, resolved)
    ensures ok ==> HoldsRoots(entries, roots, kept)
    ensures ok ==> ClosedUnder(snap, g.Keys) && HoldsRoots(entries, roots, g.Keys)
    ensures ok ==> Rebuilt(server, entries, g.Keys, resolved)
    ensures ok || (exists r: Root :: r in roots && (r.fqdn !in entries || entries[r.fqdn].version == "")) ||
            exists k: Key :: k in kept && (k !in snap || !Usable(server, entries, k))
    ensures forall s: set<Key> {:trigger ClosedUnder(snap, s)} ::
              HoldsRoots(entries, roots, s) && ClosedUnder(snap, s) ==> kept <= s
  {
    resolved, g, kept := map[], map[], {};
    var keys;
    ok, keys := PreservedRootKeys(roots, entries);
    if !ok { return; }
    var preserved := CollectGraphKeys(snap, keys);
    kept := preserved;
    forall s: set<Key> | HoldsRoots(entries, roots, s) && ClosedUnder(snap, s) ensures kept <= s {
      assert Contains(s, keys);
    }
    var left := preserved;
    while left != {}
      invariant left <= preserved == kept
      invariant g.Keys == preserved - left && forall k: Key :: k in g ==> k in snap && g[k] == snap[k]
      invariant Rebuilt(server, entries, preserved - left, resolved)
    {
      var k :| k in left;
      if k !in snap || !Usable(server, entries, k) {
        return false, map[], map[], kept;
      }
      g := g[k := snap[k]];
      resolved := resolved[k.fqdn := FromEntry(server, k.fqdn, entries[k.fqdn]).value];
      left := left - {k};
    }
    assert preserved - left == preserved;
    ok := true;
  }

  lemma PreservedIsStructured(server: string, entries: Entries, snap: Graph, kept: set<Key>, resolved: Resolved)
    requires kept <= snap.Keys && ClosedUnder(snap, kept) && Rebuilt(server, entries, kept, resolved)
    ensures Structured(Versions(resolved), map k | k in kept :: Deps(snap, k))
  {
    var versions := Versions(resolved);
    var g := map k | k in kept :: Deps(snap, k);
    forall k: Key | k in g ensures Agrees(versions, k) {
      assert Usable(server, entries, k);
      assert FromEntry(server, k.fqdn, entries[k.fqdn]) == Some(resolved[k.fqdn]);
    }
    forall f: string | f in versions ensures PlainFqdn(f) && versions[f] != "" && Key(f, versions[f]) in g {
      assert f in resolved && FromEntry(server, f, entries[f]) == Some(resolved[f]);
      assert versions[f] == entries[f].version;
    }
    forall k: Key | k in g ensures Ends(g, k) {
      assert Followed(snap, kept, k);
    }
  }

  // ------------------------------------------------------------ merging

  /** sameDeps counts one list up and the other down; it holds exactly when the
      lists have the same items as often. */
  method SameDeps(a: seq<Key>, b: seq<Key>) returns (same: bool)
    ensures same <==> multiset(a) == multiset(b)
  {
    if |a| != |b| {
      assert |multiset(a)| == |a| && |multiset(b)| == |b|;
      return false;
    }
    var counts := multiset{};
    for i := 0 to |a|
      invariant counts == multiset(a[..i])
    {
      assert a[..i + 1] == a[..i] + [a[i]];
      counts := counts[a[i] := counts[a[i]] + 1];
    }
    assert a[..|a|] == a;
    for i := 0 to |b|
      invariant counts + multiset(b[..i]) == multiset(a)
    {
      assert b[..i + 1] == b[..i] + [b[i]];
      assert b == b[..i + 1] + b[i + 1..];
      if counts[b[i]] == 0 {
        assert multiset(a)[b[i]] < multiset(b)[b[i]];
        return false;
      }
      counts := counts[b[i] := counts[b[i]] - 1];
    }
    assert b[..|b|] == b;
    assert |counts| == 0;
    same := true;
  }

  // No collection is resolved to two versions.
  ghost predicate OneVersion(r1: Resolved, r2: Resolved) {
    forall f: string :: f in r1 && f in r2 ==> r1[f].version == r2[f].version
  }

  // No node has two different edge lists.
  ghost predicate OneEdgeList(g1: Graph, g2: Graph) {
    forall k: Key :: k in g1 && k in g2 ==> multiset(g1[k]) == multiset(g2[k])
  }

  method MergeResolved(r1: Resolved, r2: Resolved) returns (ok: bool, r: Resolved)
    ensures ok <==> OneVersion(r1, r2)
    ensures ok ==> r == r1 + r2
  {
    r := r1;
    var left := r2.Keys;
    while left != {}
      invariant left <= r2.Keys
      invariant forall f: string :: f in r <==> f in r1 || (f in r2 && f !in left)
      invariant forall f: string :: f in r ==> r[f] == if f in r2 && f !in left then r2[f] else r1[f]
      invariant forall f: string :: f in r1 && f in r2 && f !in left ==> r1[f].version == r2[f].version
    {
      var f :| f in left;
      if f in r && r[f].version != r2[f].version { return false, map[]; }
      r := r[f := r2[f]];
      left := left - {f};
    }
    assert r == r1 + r2;
    ok := true;
  }

  method MergeGraph(g1: Graph, g2: Graph) returns (ok: bool, g: Graph)
    ensures ok <==> OneEdgeList(g1, g2)
    ensures ok ==> g == g2 + g1
  {
    g := g1;
    var left := g2.Keys;
    while left != {}
      invariant left <= g2.Keys
      invariant forall k: Key :: k in g <==> k in g1 || (k in g2 && k !in left)
      invariant forall k: Key :: k in g ==> g[k] == if k in g1 then g1[k] else g2[k]
      invariant forall k: Key :: k in g1 && k in g2 && k !in left ==> multiset(g1[k]) == multiset(g2[k])
    {
      var k :| k in left;
      if k in g {
        var same := SameDeps(g[k], g2[k]);
        if !same { return false, map[]; }
      } else {
        g := g[k := g2[k]];
      }
      left := left - {k};
    }
    assert g == g2 + g1;
    ok := true;
  }

  /** mergeResolvedGraphs: fails exactly on halves that disagree; a shared
      collection takes the new half's entry, a shared node the old one's edges. */
  method MergeResolvedGraphs(r1: Resolved, g1: Graph, r2: Resolved, g2: Graph) returns (ok: bool, r: Resolved, g: Graph)
    ensures ok <==> OneVersion(r1, r2) && OneEdgeList(g1, g2)
    ensures ok ==> r == r1 + r2 && g == g2 + g1
  {
    g := map[];
    ok, r := MergeResolved(r1, r2);
    if ok {
      ok, g := MergeGraph(g1, g2);
    }
  }

  // ---------------------------------------------------------- expanding

  // ensureResolvedFromSnapshot.
  function EnsureResolved(server: string, resolved: Resolved, entries: Entries, k: Key): (r: Option<Resolved>)
    ensures r.Some? ==> k.Key? && k.fqdn in r.value && r.value[k.fqdn].version == k.version
    ensures r.Some? ==> Versions(resolved).Items <= Versions(r.value).Items
  {
    if !k.Key? then None
    else if k.fqdn in resolved then (if resolved[k.fqdn].version == k.version then Some(resolved) else None)
    else if Usable(server, entries, k) then Some(resolved[k.fqdn := FromEntry(server, k.fqdn, entries[k.fqdn]).value])
    else None
  }

  // h holds all of g, unchanged.
  ghost predicate Extends(h: Graph, g: Graph) {
    forall k: Key :: k in g ==> k in h && h[k] == g[k]
  }

  // A snapshot node can be brought in: its collection is not resolved yet and can be
  // rebuilt at that version, or is resolved to it.
  predicate Fits(server: string, r0: Resolved, entries: Entries, k: Key) {
    k.Key? && if k.fqdn in r0 then r0[k.fqdn].version == k.version else Usable(server, entries, k)
  }

  // k is in every set that holds the merged nodes and is closed under their edges
  // and, past them, the snapshot's.
  ghost predicate Wanted(g0: Graph, snap: Graph, k: Key) {
    forall s: set<Key> {:trigger ClosedUnder(snap + g0, s)} :: ClosedUnder(snap + g0, s) && g0.Keys <= s ==> k in s
  }

  predicate Available(server: string, r0: Resolved, entries: Entries, snap: Graph, k: Key) {
    k in snap && Fits(server, r0, entries, k)
  }

  // A node past the merged ones was wanted, and is the snapshot's.
  ghost predicate Brought(server: string, r0: Resolved, g0: Graph, g: Graph, entries: Entries, snap: Graph, k: Key) {
    k in g && k !in g0 ==> Wanted(g0, snap, k) && Available(server, r0, entries, snap, k) && g[k] == snap[k]
  }

  // A collection past the resolved ones is the snapshot's, for a node brought in.
  ghost predicate Rebuilds(server: string, r0: Resolved, g0: Graph, r: Resolved, g: Graph, entries: Entries,
                           f: string) {
    f in r && f !in r0 ==>
      f in entries && FromEntry(server, f, entries[f]) == Some(r[f]) &&
      Key(f, r[f].version) in g && Key(f, r[f].version) !in g0
  }

  // Resolved collections stay as they are.
  ghost predicate Keeps(r: Resolved, r0: Resolved) {
    forall f: string :: f in r0 ==> f in r && r[f] == r0[f]
  }

  // What has been brought in on top of the merged halves.
  ghost predicate Splices(server: string, r0: Resolved, g0: Graph, r: Resolved, g: Graph, entries: Entries,
                          snap: Graph) {
    && Extends(g, g0) && Keeps(r, r0)
    && (forall k: Key {:trigger Brought(server, r0, g0, g, entries, snap, k)} ::
          Brought(server, r0, g0, g, entries, snap, k))
    && (forall f: string {:trigger Rebuilds(server, r0, g0, r, g, entries, f)} ::
          Rebuilds(server, r0, g0, r, g, entries, f))
    && (forall k: Key {:trigger Agrees(Versions(r), k)} :: k in g && k !in g0 ==> Agrees(Versions(r), k))
  }

  // Some node that is needed cannot be brought in.
  ghost predicate Lacks(server: string, r0: Resolved, g0: Graph, entries: Entries, snap: Graph) {
    exists k: Key :: Wanted(g0, snap, k) && k !in g0 && !Available(server, r0, entries, snap, k)
  }

  lemma EdgeIsWanted(server: string, r0: Resolved, g0: Graph, r: Resolved, g: Graph, entries: Entries, snap: Graph,
                     key: Key, dep: Key)
    requires Splices(server, r0, g0, r, g, entries, snap) && key in g && dep in g[key]
    ensures Wanted(g0, snap, dep)
  {
    assert Brought(server, r0, g0, g, entries, snap, key);
    forall s: set<Key> | ClosedUnder(snap + g0, s) && g0.Keys <= s ensures dep in s {
      assert key in s && Followed(snap + g0, s, key);
      assert Deps(snap + g0, key) == g[key];
    }
  }

  // One dependency: taken over from the snapshot, unless it cannot be.
  method BringOne(server: string, ghost rb: Resolved, ghost gb: Graph, ghost key: Key, dep: Key, r0: Resolved,
                  g0: Graph, entries: Entries, snap: Graph)
    returns (ok: bool, r: Resolved, g: Graph)
    requires Splices(server, rb, gb, r0, g0, entries, snap) && key in g0 && dep in g0[key] && dep !in g0
    ensures ok ==> Splices(server, rb, gb, r, g, entries, snap) && dep in snap && g == g0[dep := snap[dep]]
    ensures Extends(g, g0)
    ensures !ok ==> Lacks(server, rb, gb, entries, snap)
  {
    EdgeIsWanted(server, rb, gb, r0, g0, entries, snap, key, dep);
    assert dep !in gb by { assert Extends(g0, gb); }
    r, g := r0, g0;
    if dep !in snap {
      assert !Available(server, rb, entries, snap, dep);
      return false, r, g;
    }
    g := g[dep := snap[dep]];
    match EnsureResolved(server, r, entries, dep)
    case None =>
      NotFitting(server, rb, gb, r0, g0, entries, dep);
      return false, r, g;
    case Some(r') =>
      SplicesOneMore(server, rb, gb, r0, g0, dep, r', entries, snap);
      return true, r', g;
  }

  // What does not fit what is resolved by now does not fit what was.
  lemma NotFitting(server: string, rb: Resolved, gb: Graph, r: Resolved, g: Graph, entries: Entries, k: Key)
    requires Keeps(r, rb) && forall f: string :: Rebuilds(server, rb, gb, r, g, entries, f)
    requires EnsureResolved(server, r, entries, k).None?
    ensures !Fits(server, rb, entries, k)
  {
    if k.Key? { assert Rebuilds(server, rb, gb, r, g, entries, k.fqdn); }
  }

  // What fits what is resolved by now did fit what was.
  lemma Fitting(server: string, rb: Resolved, gb: Graph, r: Resolved, g: Graph, entries: Entries, k: Key)
    requires Keeps(r, rb) && forall f: string :: Rebuilds(server, rb, gb, r, g, entries, f)
    requires EnsureResolved(server, r, entries, k).Some?
    ensures Fits(server, rb, entries, k)
  {
    assert Rebuilds(server, rb, gb, r, g, entries, k.fqdn);
    if k.fqdn in r && k.fqdn !in rb { assert FromEntry(server, k.fqdn, entries[k.fqdn]).Some?; }
  }

  lemma SplicesOneMore(server: string, rb: Resolved, gb: Graph, r0: Resolved, g0: Graph, dep: Key, r: Resolved,
                       entries: Entries, snap: Graph)
    requires Splices(server, rb, gb, r0, g0, entries, snap) && dep !in g0 && dep !in gb && dep in snap
    requires Wanted(gb, snap, dep) && EnsureResolved(server, r0, entries, dep) == Some(r)
    ensures Splices(server, rb, gb, r, g0[dep := snap[dep]], entries, snap)
  {
    var g := g0[dep := snap[dep]];
    Fitting(server, rb, gb, r0, g0, entries, dep);
    forall k: Key ensures Brought(server, rb, gb, g, entries, snap, k) {
      assert Brought(server, rb, gb, g0, entries, snap, k);
    }
    forall f: string ensures Rebuilds(server, rb, gb, r, g, entries, f) {
      assert Rebuilds(server, rb, gb, r0, g0, entries, f);
    }
    forall k: Key | k in g && k !in gb ensures Agrees(Versions(r), k) {
      if k != dep { assert Agrees(Versions(r0), k); }
    }
  }

  // The inner loop: what `key` depends on is brought in from the snapshot.
  method BringDeps(server: string, ghost rb: Resolved, ghost gb: Graph, key: Key, r0: Resolved, g0: Graph,
                   queue0: seq<Key>, entries: Entries, snap: Graph)
    returns (ok: bool, r: Resolved, g: Graph, queue: seq<Key>)
    requires key in g0 && Splices(server, rb, gb, r0, g0, entries, snap)
    ensures ok ==> Splices(server, rb, gb, r, g, entries, snap)
    ensures !ok ==> Lacks(server, rb, gb, entries, snap)
    ensures Extends(g, g0)
    ensures ok ==> queue0 <= queue
    ensures ok ==> forall d: Key :: d in g0[key] ==> d in g
    ensures ok ==> forall k: Key :: k in g && k !in g0 ==> k in queue && k in snap
    ensures ok ==> forall k: Key :: k in queue ==> k in queue0 || (k in g && k !in g0)
    ensures ok && g == g0 ==> queue == queue0
  {
    r, g, queue := r0, g0, queue0;
    var deps := g0[key];
    for i := 0 to |deps|
      invariant Splices(server, rb, gb, r, g, entries, snap)
      invariant Extends(g, g0) && queue0 <= queue
      invariant forall d: Key :: d in deps[..i] ==> d in g
      invariant forall k: Key :: k in g && k !in g0 ==> k in queue && k in snap
      invariant forall k: Key :: k in queue ==> k in queue0 || (k in g && k !in g0)
      invariant g == g0 ==> queue == queue0
    {
      var dep := deps[i];
      assert deps[..i + 1] == deps[..i] + [dep];
      if dep !in g {
        ok, r, g := BringOne(server, rb, gb, key, dep, r, g, entries, snap);
        if !ok { return false, r, g, queue; }
        queue := queue + [dep];
      }
    }
    assert deps[..|deps|] == deps;
    ok := true;
  }

  // Every node that is not queued any more has its edges end at nodes.
  ghost predicate Expanded(g: Graph, queue: seq<Key>) {
    forall k: Key {:trigger Ends(g, k)} :: k in g && k !in queue ==> Ends(g, k)
  }

  lemma ExpandedGrows(before: Graph, waiting: seq<Key>, g: Graph, queue: seq<Key>)
    requires waiting != [] && Expanded(before, waiting) && Extends(g, before) && waiting[0] in before
    requires forall d: Key :: d in before[waiting[0]] ==> d in g
    requires waiting[1..] <= queue && forall k: Key :: k in g && k !in before ==> k in queue
    ensures Expanded(g, queue)
  {
    forall k: Key | k in g && k !in queue ensures Ends(g, k) {
      assert waiting == [waiting[0]] + waiting[1..];
      if k != waiting[0] {
        assert k in before && k !in waiting;
        assert Ends(before, k);
      }
    }
  }

  // New nodes leave fewer snapshot nodes to bring in.
  lemma NewNodesShrink(before: Graph, g: Graph, snap: Graph)
    requires Extends(g, before) && forall k: Key :: k in g && k !in before ==> k in snap
    ensures g == before || |snap.Keys - g.Keys| < |snap.Keys - before.Keys|
  {
    if n: Key :| n in g && n !in before {
      assert n in snap.Keys - before.Keys && n !in snap.Keys - g.Keys;
      SmallerSet(snap.Keys - g.Keys, snap.Keys - before.Keys);
    } else {
      assert g.Keys == before.Keys;
    }
  }

  // One pass of the outer loop: the first queued node is expanded.
  method ExpandFirst(server: string, ghost rb: Resolved, ghost gb: Graph, r0: Resolved, g0: Graph, queue0: seq<Key>,
                     entries: Entries, snap: Graph)
    returns (ok: bool, r: Resolved, g: Graph, queue: seq<Key>)
    requires queue0 != [] && Expanded(g0, queue0) && forall k: Key :: k in queue0 ==> k in g0
    requires Splices(server, rb, gb, r0, g0, entries, snap)
    ensures Extends(g, g0)
    ensures ok ==> Splices(server, rb, gb, r, g, entries, snap)
    ensures !ok ==> Lacks(server, rb, gb, entries, snap)
    ensures ok ==> Expanded(g, queue) && forall k: Key :: k in queue ==> k in g
    ensures ok ==> |snap.Keys - g.Keys| < |snap.Keys - g0.Keys| || (g == g0 && queue == queue0[1..])
  {
    var key := queue0[0];
    assert queue0 == [key] + queue0[1..];
    ok, r, g, queue := BringDeps(server, rb, gb, key, r0, g0, queue0[1..], entries, snap);
    if ok {
      NewNodesShrink(g0, g, snap);
      ExpandedGrows(g0, queue0, g, queue);
    }
  }

  /** expandGraphFromSnapshot, whatever order the queue starts in: it brings in the
      snapshot nodes that closing the graph takes, and their collections, no others;
      it fails exactly when one of those is not in the snapshot or does not fit what
      is resolved; and where both halves were closed nothing changes at all. */
  method ExpandGraphFromSnapshot(server: string, r0: Resolved, g0: Graph, entries: Entries, snap: Graph)
    returns (ok: bool, r: Resolved, g: Graph)
    ensures ok <==> !Lacks(server, r0, g0, entries, snap)
    ensures Extends(g, g0)
    ensures ok ==> Closed(g) && Splices(server, r0, g0, r, g, entries, snap)
    ensures ok ==> forall k: Key :: k in g <==> Wanted(g0, snap, k)
    ensures Closed(g0) ==> ok && r == r0 && g == g0
  {
    r, g := r0, g0;
    NothingLacking(server, r0, g0, entries, snap);
    var queue := Listed(g0.Keys);
    while |queue| > 0
      invariant Expanded(g, queue) && Splices(server, r0, g0, r, g, entries, snap)
      invariant Extends(g, g0)
      invariant forall k: Key :: k in queue ==> k in g
      decreases |snap.Keys - g.Keys|, |queue|
    {
      ok, r, g, queue := ExpandFirst(server, r0, g0, r, g, queue, entries, snap);
      if !ok { return; }
    }
    ok := true;
    ExpansionDone(server, r0, g0, r, g, entries, snap);
  }

  lemma ExpansionDone(server: string, r0: Resolved, g0: Graph, r: Resolved, g: Graph, entries: Entries, snap: Graph)
    requires Splices(server, r0, g0, r, g, entries, snap) && Expanded(g, [])
    ensures Closed(g) && !Lacks(server, r0, g0, entries, snap)
    ensures forall k: Key :: k in g <==> Wanted(g0, snap, k)
    ensures Closed(g0) ==> r == r0 && g == g0
  {
    assert Closed(g);
    NodesAreWanted(server, r0, g0, r, g, entries, snap);
    if Closed(g0) { NothingBrought(server, r0, g0, r, g, entries, snap); }
  }

  lemma NodesAreWanted(server: string, r0: Resolved, g0: Graph, r: Resolved, g: Graph, entries: Entries, snap: Graph)
    requires Splices(server, r0, g0, r, g, entries, snap) && Closed(g)
    ensures forall k: Key :: k in g <==> Wanted(g0, snap, k)
    ensures !Lacks(server, r0, g0, entries, snap)
  {
    forall k: Key | k in g.Keys ensures Followed(snap + g0, g.Keys, k) {
      assert Brought(server, r0, g0, g, entries, snap, k) && Ends(g, k);
      assert Deps(snap + g0, k) == g[k];
    }
    assert ClosedUnder(snap + g0, g.Keys) && g0.Keys <= g.Keys;
    forall k: Key | k in g ensures Wanted(g0, snap, k) {
      assert Brought(server, r0, g0, g, entries, snap, k);
    }
    forall k: Key | Wanted(g0, snap, k) && k !in g0 ensures Available(server, r0, entries, snap, k) {
      assert Brought(server, r0, g0, g, entries, snap, k);
    }
  }

  // A closed graph wants nothing from the snapshot.
  lemma NothingLacking(server: string, r0: Resolved, g0: Graph, entries: Entries, snap: Graph)
    ensures Closed(g0) ==> forall k: Key :: Wanted(g0, snap, k) ==> k in g0
    ensures Closed(g0) ==> !Lacks(server, r0, g0, entries, snap)
  {
    if Closed(g0) {
      forall k: Key | k in g0.Keys ensures Followed(snap + g0, g0.Keys, k) {
        assert Ends(g0, k) && Deps(snap + g0, k) == g0[k];
      }
      assert ClosedUnder(snap + g0, g0.Keys);
    }
  }

  lemma NothingBrought(server: string, r0: Resolved, g0: Graph, r: Resolved, g: Graph, entries: Entries, snap: Graph)
    requires Splices(server, r0, g0, r, g, entries, snap) && Closed(g0)
    ensures r == r0 && g == g0
  {
    NothingLacking(server, r0, g0, entries, snap);
    forall k: Key | k in g ensures k in g0 {
      assert Brought(server, r0, g0, g, entries, snap, k);
    }
    assert g.Keys == g0.Keys;
    forall f: string | f in r ensures f in r0 {
      assert Rebuilds(server, r0, g0, r, g, entries, f);
    }
    assert r.Keys == r0.Keys;
  }

  // A set's elements in some order.
  method Listed(keys: set<Key>) returns (queue: seq<Key>)
    ensures forall k: Key :: k in queue <==> k in keys
  {
    queue := [];
    var left := keys;
    while left != {}
      invariant left <= keys && forall k: Key :: k in queue <==> k in keys && k !in left
    {
      var k :| k in left;
      queue, left := queue + [k], left - {k};
    }
  }

  /** validateMergedGraph: every node is the resolved version of its collection. */
  method ValidateMergedGraph(resolved: Resolved, g: Graph) returns (ok: bool)
    ensures ok <==> forall k: Key :: k in g ==> Agrees(Versions(resolved), k)
  {
    var left := g.Keys;
    while left != {}
      invariant left <= g.Keys && forall k: Key :: k in g && k !in left ==> Agrees(Versions(resolved), k)
    {
      var k :| k in left;
      if !k.Key? || k.fqdn !in resolved || resolved[k.fqdn].version != k.version {
        assert !Agrees(Versions(resolved), k);
        return false;
      }
      left := left - {k};
    }
    ok := true;
  }

  // ------------------------------------------------------ the whole call

  // The snapshot solved the roots it was recorded for.
  ghost predicate SnapshotSolves(w: World, roots: seq<Root>, entries: Entries, snap: Graph) {
    Solves(w, roots, EntryVersions(entries), snap)
  }

  ghost predicate Among(roots: seq<Root>, all: seq<Root>) {
    forall r: Root :: r in roots ==> r in all
  }

  lemma PreservedSolves(w: World, server: string, prev: seq<Root>, roots: seq<Root>, entries: Entries, snap: Graph,
                        kept: set<Key>, resolved: Resolved)
    requires SnapshotSolves(w, prev, entries, snap) && Among(roots, prev)
    requires kept <= snap.Keys && ClosedUnder(snap, kept) && Rebuilt(server, entries, kept, resolved)
    requires HoldsRoots(entries, roots, kept)
    ensures Solves(w, roots, Versions(resolved), map k | k in kept :: Deps(snap, k))
  {
    PreservedIsStructured(server, entries, snap, kept, resolved);
    var versions := Versions(resolved);
    var g := map k | k in kept :: Deps(snap, k);
    forall k: Key | k in g ensures NodeMeets(w, versions, g, k) {
      assert NodeMeets(w, EntryVersions(entries), snap, k);
      forall f: string | f in w.Needs(k)
        ensures f in versions && w.Sat(versions[f], w.Needs(k)[f]) && Key(f, versions[f]) in g[k]
      {
        var d := Key(f, entries[f].version);
        assert d in Deps(snap, k) && Followed(snap, kept, k);
        assert Usable(server, entries, d);
        assert FromEntry(server, f, entries[f]) == Some(resolved[f]);
      }
    }
    forall r: Root | r in roots ensures RootMet(w, versions, r) {
      assert RootMet(w, EntryVersions(entries), r);
      assert Usable(server, entries, RootKey(entries, r.fqdn));
      assert FromEntry(server, r.fqdn, entries[r.fqdn]) == Some(resolved[r.fqdn]);
    }
  }

  lemma UnionIsStructured(r1: Resolved, g1: Graph, r2: Resolved, g2: Graph)
    requires Structured(Versions(r1), g1) && Structured(Versions(r2), g2) && OneVersion(r1, r2)
    ensures Structured(Versions(r1 + r2), g2 + g1)
  {
    var versions := Versions(r1 + r2);
    var g := g2 + g1;
    forall k: Key | k in g ensures Agrees(versions, k) {
      assert k in g1 ==> Agrees(Versions(r1), k);
      assert k in g2 ==> Agrees(Versions(r2), k);
    }
    forall k: Key | k in g ensures Ends(g, k) {
      if k in g1 { assert Ends(g1, k); } else { assert Ends(g2, k); }
    }
    forall f: string | f in versions ensures PlainFqdn(f) && versions[f] != "" && Key(f, versions[f]) in g {
      assert f in r1 ==> f in Versions(r1);
      assert f in r2 ==> f in Versions(r2);
    }
  }

  /** Two halves that solve their own roots and resolve no collection to two
      versions together solve all the roots. */
  lemma UnionSolves(w: World, roots1: seq<Root>, r1: Resolved, g1: Graph, roots2: seq<Root>, r2: Resolved, g2: Graph)
    requires Solves(w, roots1, Versions(r1), g1) && Solves(w, roots2, Versions(r2), g2) && OneVersion(r1, r2)
    ensures Solves(w, roots1 + roots2, Versions(r1 + r2), g2 + g1)
  {
    UnionIsStructured(r1, g1, r2, g2);
    var versions := Versions(r1 + r2);
    var g := g2 + g1;
    assert forall f: string :: f in r1 ==> versions[f] == r1[f].version;
    assert forall f: string :: f in r2 ==> versions[f] == r2[f].version;
    forall k: Key | k in g ensures NodeMeets(w, versions, g, k) {
      if k in g1 { assert NodeMeets(w, Versions(r1), g1, k); } else { assert NodeMeets(w, Versions(r2), g2, k); }
    }
    forall r: Root | r in roots1 + roots2 ensures RootMet(w, versions, r) {
      if r in roots1 { assert RootMet(w, Versions(r1), r); } else { assert RootMet(w, Versions(r2), r); }
    }
  }

  lemma {:induction false} DistinctCounts(s: seq<Key>, k: Key)
    requires Distinct(s)
    ensures multiset(s)[k] == if k in s then 1 else 0
  {
    if s != [] {
      var rest := s[1..];
      assert s == [s[0]] + rest;
      DistinctCounts(rest, k);
      assert s[0] !in rest;
    }
  }

  // Where the versions agree, a node both halves solve has the same edges in
  // both, so sameDeps never refuses it.
  lemma OneVersionGivesOneEdgeList(w: World, r1: Resolved, g1: Graph, r2: Resolved, g2: Graph)
    requires Solves(w, [], Versions(r1), g1) && Solves(w, [], Versions(r2), g2) && OneVersion(r1, r2)
    requires DistinctEdges(g1) && DistinctEdges(g2)
    ensures OneEdgeList(g1, g2)
  {
    forall k: Key | k in g1 && k in g2 ensures multiset(g1[k]) == multiset(g2[k]) {
      assert NodeMeets(w, Versions(r1), g1, k) && NodeMeets(w, Versions(r2), g2, k);
      assert Distinct(g1[k]) && Distinct(g2[k]) && Ends(g1, k) && Ends(g2, k);
      forall d: Key ensures multiset(g1[k])[d] == multiset(g2[k])[d] {
        DistinctCounts(g1[k], d);
        DistinctCounts(g2[k], d);
        if d in g1[k] { assert Agrees(Versions(r1), d); }
        if d in g2[k] { assert Agrees(Versions(r2), d); }
      }
    }
  }

  // k is in every closed set that holds the unchanged roots' keys.
  ghost predicate Reached(entries: Entries, snap: Graph, roots: seq<Root>, k: Key) {
    forall s: set<Key> {:trigger ClosedUnder(snap, s)} ::
      HoldsRoots(entries, roots, s) && ClosedUnder(snap, s) ==> k in s
  }

  // The preserved part resolves no collection to another version than the
  // fresh solve does.
  ghost predicate NoClash(entries: Entries, snap: Graph, roots: seq<Root>, anew: Resolved) {
    forall f: string :: f in anew && f in entries && Reached(entries, snap, roots, Key(f, entries[f].version)) ==>
      anew[f].version == entries[f].version
  }

  /** tryIncrementalResolveWithSnapshot, given the nested solve's result.
      Whatever the snapshot holds, a success is closed, agrees on one version per
      collection and keeps every unchanged root at its snapshot version. If the
      snapshot solved the roots it was recorded for, and the nested solve solves
      the changed roots, a success solves all current roots. */
  method TryIncrementalResolve(server: string, rootsKept: seq<Root>, changed: seq<Root>, entries: Entries, snap: Graph,
                               freshResolved: Resolved, freshGraph: Graph, ghost w: World, ghost prev: seq<Root>)
    returns (ok: bool, r: Resolved, g: Graph)
    requires Structured(Versions(freshResolved), freshGraph)
    ensures ok ==> Structured(Versions(r), g)
    ensures ok ==> forall root: Root :: root in rootsKept ==>
                     root.fqdn in entries && root.fqdn in r && r[root.fqdn].version == entries[root.fqdn].version
    ensures ok ==> forall f: string :: f in freshResolved ==> f in r && r[f] == freshResolved[f]
    // What the new half does not have is the snapshot's, source included.
    ensures ok ==> forall f: string :: f in r && f !in freshResolved ==>
              f in entries && FromEntry(server, f, entries[f]) == Some(r[f])
    ensures ok && SnapshotSolves(w, prev, entries, snap) && Among(rootsKept, prev) &&
            Solves(w, changed, Versions(freshResolved), freshGraph) ==>
              Solves(w, rootsKept + changed, Versions(r), g)
    // Edge lists without repetitions stay so, so the result may be recorded as the
    // next snapshot.
    ensures ok && DistinctEdges(snap) && DistinctEdges(freshGraph) ==> DistinctEdges(g)
    // On valid input it succeeds exactly when the two halves never want two
    // versions of one collection, every entry being one that can be rebuilt.
    ensures SnapshotSolves(w, prev, entries, snap) && Among(rootsKept, prev) && DistinctEdges(snap) &&
            Solves(w, changed, Versions(freshResolved), freshGraph) && DistinctEdges(freshGraph) &&
            (forall f: string :: f in entries ==> FromEntry(server, f, entries[f]).Some?) ==>
              (ok <==> NoClash(entries, snap, rootsKept, freshResolved))
  {
    var preserved, preservedGraph;
    ghost var kept;
    r, g := map[], map[];
    ok, preserved, preservedGraph, kept := BuildPreservedSnapshot(server, rootsKept, entries, snap);
    if !ok {
      if SnapshotSolves(w, prev, entries, snap) && Among(rootsKept, prev) &&
         (forall f: string :: f in entries ==> FromEntry(server, f, entries[f]).Some?)
      {
        ValidSnapshotIsPreserved(w, server, prev, rootsKept, entries, snap, kept);
      }
      return;
    }
    PreservedIsStructured(server, entries, snap, kept, preserved);
    KeptIsReached(server, entries, snap, rootsKept, kept, preserved, freshResolved);
    ok, r, g := MergeResolvedGraphs(preserved, preservedGraph, freshResolved, freshGraph);
    if !ok {
      if SnapshotSolves(w, prev, entries, snap) && Among(rootsKept, prev) && OneVersion(preserved, freshResolved) &&
         DistinctEdges(snap) && Solves(w, changed, Versions(freshResolved), freshGraph) && DistinctEdges(freshGraph)
      {
        PreservedSolves(w, server, prev, rootsKept, entries, snap, kept, preserved);
        forall k: Key | k in preservedGraph ensures Distinct(preservedGraph[k]) { assert Distinct(snap[k]); }
        OneVersionGivesOneEdgeList(w, preserved, preservedGraph, freshResolved, freshGraph);
      }
      return;
    }
    UnionIsStructured(preserved, preservedGraph, freshResolved, freshGraph);
    if SnapshotSolves(w, prev, entries, snap) && Among(rootsKept, prev) &&
       Solves(w, changed, Versions(freshResolved), freshGraph)
    {
      PreservedSolves(w, server, prev, rootsKept, entries, snap, kept, preserved);
      UnionSolves(w, rootsKept, preserved, preservedGraph, changed, freshResolved, freshGraph);
    }
    UnchangedRootsKept(server, rootsKept, entries, kept, preserved, freshResolved);
    if DistinctEdges(snap) && DistinctEdges(freshGraph) { DistinctMerged(snap, kept, freshGraph); }
    ok, r, g := ExpandGraphFromSnapshot(server, r, g, entries, snap);
    ok := ValidateMergedGraph(r, g);
  }

  lemma DistinctMerged(snap: Graph, kept: set<Key>, anew: Graph)
    requires DistinctEdges(snap) && DistinctEdges(anew) && kept <= snap.Keys
    ensures DistinctEdges(anew + map k | k in kept :: Deps(snap, k))
  {
    var g := anew + map k | k in kept :: Deps(snap, k);
    forall k: Key | k in g ensures Distinct(g[k]) {
      assert if k in kept then Distinct(snap[k]) else Distinct(anew[k]);
    }
  }

  lemma UnchangedRootsKept(server: string, roots: seq<Root>, entries: Entries, kept: set<Key>, preserved: Resolved,
                           anew: Resolved)
    requires Rebuilt(server, entries, kept, preserved) && OneVersion(preserved, anew)
    requires HoldsRoots(entries, roots, kept)
    ensures forall r: Root :: r in roots ==>
              r.fqdn in preserved + anew && (preserved + anew)[r.fqdn].version == entries[r.fqdn].version
    ensures forall f: string :: f in preserved + anew && f !in anew ==>
              f in entries && FromEntry(server, f, entries[f]) == Some((preserved + anew)[f])
  {
    forall r: Root | r in roots
      ensures r.fqdn in preserved + anew && (preserved + anew)[r.fqdn].version == entries[r.fqdn].version
    {
      assert Usable(server, entries, RootKey(entries, r.fqdn));
      assert FromEntry(server, r.fqdn, entries[r.fqdn]) == Some(preserved[r.fqdn]);
    }
  }

  // On a valid snapshot the preserved part is always found.
  lemma ValidSnapshotIsPreserved(w: World, server: string, prev: seq<Root>, roots: seq<Root>, entries: Entries,
                                 snap: Graph, kept: set<Key>)
    requires SnapshotSolves(w, prev, entries, snap) && Among(roots, prev)
    requires forall f: string :: f in entries ==> FromEntry(server, f, entries[f]).Some?
    requires forall s: set<Key> {:trigger ClosedUnder(snap, s)} ::
               HoldsRoots(entries, roots, s) && ClosedUnder(snap, s) ==> kept <= s
    ensures forall r: Root :: r in roots ==> r.fqdn in entries && entries[r.fqdn].version != ""
    ensures forall k: Key :: k in kept ==> k in snap && Usable(server, entries, k)
  {
    var versions := EntryVersions(entries);
    forall r: Root | r in roots
      ensures r.fqdn in entries && entries[r.fqdn].version != "" && RootKey(entries, r.fqdn) in snap
    {
      assert RootMet(w, versions, r);
    }
    forall k: Key | k in snap.Keys ensures Followed(snap, snap.Keys, k) {
      assert Ends(snap, k);
    }
    assert ClosedUnder(snap, snap.Keys) && HoldsRoots(entries, roots, snap.Keys);
    assert forall k: Key :: k in kept ==> Agrees(versions, k);
  }

  // The kept keys are the reached ones, so the clash condition is about them.
  lemma KeptIsReached(server: string, entries: Entries, snap: Graph, roots: seq<Root>, kept: set<Key>,
                      preserved: Resolved, anew: Resolved)
    requires ClosedUnder(snap, kept) && Rebuilt(server, entries, kept, preserved)
    requires HoldsRoots(entries, roots, kept)
    requires forall s: set<Key> {:trigger ClosedUnder(snap, s)} ::
               HoldsRoots(entries, roots, s) && ClosedUnder(snap, s) ==> kept <= s
    ensures OneVersion(preserved, anew) <==> NoClash(entries, snap, roots, anew)
  {
    forall f: string | f in entries
      ensures f in preserved <==> Reached(entries, snap, roots, Key(f, entries[f].version))
    {
      var k := Key(f, entries[f].version);
      if k in kept { assert Usable(server, entries, k); }
      if Reached(entries, snap, roots, k) { assert k in kept; }
    }
    forall f: string | f in preserved ensures f in entries && preserved[f].version == entries[f].version {
      assert FromEntry(server, f, entries[f]) == Some(preserved[f]);
    }
  }
}
