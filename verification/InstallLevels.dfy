/**
 buildInstallLevels of internal/galaxy/collections/resolve.go: Kahn's algorithm
 over a graph that maps a key to the keys it depends on, duplicates allowed.
 */
module InstallLevels {
  import opened CollectionKeys

  // n occurs in the graph as a key or as a dependency.
  ghost predicate IsNode(g: Graph, n: Key) {
    n in g || exists m: Key :: m in g && n in g[m]
  }

  // A dependency chain: each element depends on the one after it.
  ghost predicate Chain(g: Graph, p: seq<Key>) {
    |p| > 0 && forall i: nat :: i < |p| - 1 ==> Link(g, p, i)
  }

  ghost predicate Link(g: Graph, p: seq<Key>, i: nat)
    requires i < |p| - 1
  {
    p[i + 1] in Deps(g, p[i])
  }

  ghost predicate Cyclic(g: Graph) {
    exists p: seq<Key> :: Chain(g, p) && |p| >= 2 && p[0] == p[|p| - 1]
  }

  ghost predicate Below(levels: seq<seq<Key>>, k: nat, n: Key) {
    exists j: nat :: j < k && j < |levels| && n in levels[j]
  }

  ghost predicate Distinct(s: seq<Key>) {
    forall i: nat, j: nat :: i < j < |s| ==> s[i] != s[j]
  }

  // Some dependency of n is on this level.
  ghost predicate RestsOn(g: Graph, level: seq<Key>, n: Key) {
    exists d: Key :: d in Deps(g, n) && d in level
  }

  ghost predicate Fits(g: Graph, levels: seq<seq<Key>>, k: nat, n: Key)
    requires k < |levels|
  {
    && IsNode(g, n)
    && (forall d: Key :: d in Deps(g, n) ==> Below(levels, k, d))
    && (k > 0 ==> RestsOn(g, levels[k - 1], n))
  }

  // Levels in which every node comes above its dependencies, and no higher
  // than one of them forces it.
  ghost predicate Layered(g: Graph, levels: seq<seq<Key>>) {
    && (forall k: nat, n: Key {:trigger Fits(g, levels, k, n)} ::
          k < |levels| && n in levels[k] ==> Fits(g, levels, k, n))
    && (forall k: nat {:trigger Distinct(levels[k])} :: k < |levels| ==> Distinct(levels[k]))
    && (forall k: nat, l: nat, n: Key :: k < |levels| && l < |levels| && n in levels[k] && n in levels[l] ==> k == l)
  }

  // Every node is on some level.
  ghost predicate Covers(g: Graph, levels: seq<seq<Key>>) {
    forall n: Key :: IsNode(g, n) ==> Below(levels, |levels|, n)
  }

  // ------------------------------------------------ what layers mean

  lemma {:induction false} ChainDescends(g: Graph, levels: seq<seq<Key>>, p: seq<Key>, k: nat, i: nat)
    requires Layered(g, levels) && Chain(g, p) && k < |levels| && p[0] in levels[k] && i < |p|
    ensures i <= k && Below(levels, k - i + 1, p[i])
  {
    if i > 0 {
      ChainDescends(g, levels, p, k, i - 1);
      var j: nat :| j < k - (i - 1) + 1 && j < |levels| && p[i - 1] in levels[j];
      assert Link(g, p, i - 1);
      assert Fits(g, levels, j, p[i - 1]);
      assert Below(levels, j, p[i]);
    }
  }

  lemma Prepend(g: Graph, n: Key, rest: seq<Key>) returns (p: seq<Key>)
    requires Chain(g, rest) && rest[0] in Deps(g, n)
    ensures p == [n] + rest && Chain(g, p)
  {
    p := [n] + rest;
    forall i: nat | i < |p| - 1 ensures Link(g, p, i) {
      if i > 0 { assert Link(g, rest, i - 1); }
    }
  }

  lemma {:induction false} LongestChainExists(g: Graph, levels: seq<seq<Key>>, k: nat, n: Key) returns (p: seq<Key>)
    requires Layered(g, levels) && k < |levels| && n in levels[k]
    ensures Chain(g, p) && p[0] == n && |p| == k + 1
  {
    if k == 0 {
      p := [n];
    } else {
      assert Fits(g, levels, k, n);
      var d :| d in Deps(g, n) && d in levels[k - 1];
      var rest := LongestChainExists(g, levels, k - 1, d);
      p := Prepend(g, n, rest);
    }
  }

  /** A node's level is the length of its longest dependency chain. */
  lemma LevelIsLongestChain(g: Graph, levels: seq<seq<Key>>, k: nat, n: Key)
    requires Layered(g, levels) && k < |levels| && n in levels[k]
    ensures exists p: seq<Key> :: Chain(g, p) && p[0] == n && |p| - 1 == k
    ensures forall p: seq<Key> :: Chain(g, p) && p[0] == n ==> |p| - 1 <= k
  {
    var p := LongestChainExists(g, levels, k, n);
    forall p: seq<Key> | Chain(g, p) && p[0] == n ensures |p| - 1 <= k {
      ChainDescends(g, levels, p, k, |p| - 1);
    }
  }

  lemma LayeredIsAcyclic(g: Graph, levels: seq<seq<Key>>)
    requires Layered(g, levels) && Covers(g, levels)
    ensures !Cyclic(g)
  {
    forall p: seq<Key> | Chain(g, p) && |p| >= 2 ensures p[0] != p[|p| - 1] {
      assert Link(g, p, 0);
      assert IsNode(g, p[0]) && Below(levels, |levels|, p[0]);
      var k: nat :| k < |levels| && p[0] in levels[k];
      ChainDescends(g, levels, p, k, |p| - 1);
      var j: nat :| j < k - (|p| - 1) + 1 && j < |levels| && p[|p| - 1] in levels[j];
      assert j != k;
    }
  }

  // --------------------------------------------- what being stuck means

  // Every member depends on another member.
  ghost predicate Stuck(g: Graph, s: set<Key>) {
    s != {} && forall n: Key {:trigger Meets(g, s, n)} :: n in s ==> Meets(g, s, n)
  }

  ghost predicate Meets(g: Graph, s: set<Key>, n: Key) {
    exists d: Key :: d in Deps(g, n) && d in s
  }

  lemma {:induction false} Wander(g: Graph, s: set<Key>, n: Key, len: nat) returns (p: seq<Key>)
    requires Stuck(g, s) && n in s
    ensures Chain(g, p) && |p| == len + 1 && p[0] == n && forall i: nat :: i < |p| ==> p[i] in s
    decreases len
  {
    if len == 0 {
      p := [n];
    } else {
      assert Meets(g, s, n);
      var d :| d in Deps(g, n) && d in s;
      var rest := Wander(g, s, d, len - 1);
      p := Prepend(g, n, rest);
    }
  }

  // A sequence longer than the set it draws from repeats an element.
  lemma {:induction false} Pigeonhole(p: seq<Key>, s: set<Key>) returns (i: nat, j: nat)
    requires |p| > |s| && forall i: nat :: i < |p| ==> p[i] in s
    ensures i < j < |p| && p[i] == p[j]
    decreases |s|
  {
    var x := p[0];
    if k: nat :| 0 < k < |p| && p[k] == x {
      i, j := 0, k;
    } else {
      assert |s - {x}| == |s| - 1;
      i, j := Pigeonhole(p[1..], s - {x});
      i, j := i + 1, j + 1;
    }
  }

  lemma StuckIsCyclic(g: Graph, s: set<Key>)
    requires Stuck(g, s)
    ensures Cyclic(g)
  {
    var n :| n in s;
    var p := Wander(g, s, n, |s|);
    var i, j := Pigeonhole(p, s);
    SubChain(g, p, i, j + 1);
    var q := p[i..j + 1];
    assert q[0] == q[|q| - 1];
  }

  lemma SubChain(g: Graph, p: seq<Key>, i: nat, j: nat)
    requires Chain(g, p) && i < j <= |p|
    ensures Chain(g, p[i..j])
  {
    var q := p[i..j];
    forall k: nat | k < |q| - 1 ensures Link(g, q, k) {
      assert Link(g, p, i + k);
    }
  }

  // --------------------------------------------------- the two loops

  // How many entries of ds are outside done.
  function Open(ds: seq<Key>, done: set<Key>): nat {
    if ds == [] then 0 else (if ds[0] in done then 0 else 1) + Open(ds[1..], done)
  }

  lemma {:induction false} OpenAfter(ds: seq<Key>, done: set<Key>, x: Key)
    requires x !in done
    ensures Open(ds, done + {x}) + multiset(ds)[x] == Open(ds, done)
  {
    if ds != [] {
      OpenAfter(ds[1..], done, x);
      assert ds == [ds[0]] + ds[1..];
    }
  }

  lemma {:induction false} OpenZero(ds: seq<Key>, done: set<Key>)
    ensures Open(ds, done) == 0 <==> forall d: Key :: d in ds ==> d in done
  {
    if ds != [] {
      OpenZero(ds[1..], done);
      assert ds == [ds[0]] + ds[1..];
    }
  }

  lemma {:induction false} OpenNone(ds: seq<Key>)
    ensures Open(ds, {}) == |ds|
  {
    if ds != [] { OpenNone(ds[1..]); }
  }

  function Parents(reverse: map<Key, seq<Key>>, d: Key): seq<Key> {
    if d in reverse then reverse[d] else []
  }

  // Who depends on whom, as often as it says so.
  ghost predicate Inverts(h: Graph, reverse: map<Key, seq<Key>>) {
    forall d: Key, n: Key :: multiset(Parents(reverse, d))[n] == multiset(Deps(h, n))[d]
  }

  // The two maps describe h: its nodes, how many dependencies each has, and
  // its edges from the other end.
  ghost predicate Indexes(h: Graph, indegree: map<Key, nat>, reverse: map<Key, seq<Key>>) {
    && (forall n: Key :: n in indegree <==> IsNode(h, n))
    && (forall n: Key :: n in indegree ==> indegree[n] == |Deps(h, n)|)
    && Inverts(h, reverse)
  }

  // The body of the inner loop: one more dependency of `node`.
  method AddEdge(ghost h: Graph, node: Key, dep: Key, indegree0: map<Key, nat>, reverse0: map<Key, seq<Key>>)
    returns (indegree: map<Key, nat>, reverse: map<Key, seq<Key>>)
    requires node in h && Indexes(h, indegree0, reverse0)
    ensures Indexes(h[node := h[node] + [dep]], indegree, reverse)
  {
    ghost var h' := h[node := h[node] + [dep]];
    indegree := indegree0[node := indegree0[node] + 1];
    reverse := reverse0[dep := Parents(reverse0, dep) + [node]];
    if dep !in indegree {
      indegree := indegree[dep := 0];
    }
    EdgeNodes(h, node, dep);
    EdgeCounts(h, node, dep, reverse0);
    assert forall n: Key :: n in h' ==> IsNode(h', n);
  }

  lemma EdgeNodes(h: Graph, node: Key, dep: Key)
    requires node in h
    ensures forall n: Key :: IsNode(h[node := h[node] + [dep]], n) <==> IsNode(h, n) || n == dep
  {
    var h' := h[node := h[node] + [dep]];
    forall n: Key ensures IsNode(h', n) <==> IsNode(h, n) || n == dep {
      if m: Key :| m in h && n in h[m] { assert m in h' && n in h'[m]; }
      if n == dep { assert node in h' && n in h'[node]; }
      if m: Key :| m in h' && n in h'[m] { assert m in h && (n == dep || n in h[m]); }
    }
  }

  lemma EdgeCounts(h: Graph, node: Key, dep: Key, reverse: map<Key, seq<Key>>)
    requires node in h
    requires Inverts(h, reverse)
    ensures Inverts(h[node := h[node] + [dep]], reverse[dep := Parents(reverse, dep) + [node]])
  {
    var h' := h[node := h[node] + [dep]];
    var reverse' := reverse[dep := Parents(reverse, dep) + [node]];
    forall d: Key, n: Key ensures multiset(Parents(reverse', d))[n] == multiset(Deps(h', n))[d] {
      assert multiset(Parents(reverse, d))[n] == multiset(Deps(h, n))[d];
      if d == dep { assert Parents(reverse', d) == Parents(reverse, d) + [node]; }
      if n == node { assert Deps(h', n) == Deps(h, n) + [dep]; }
    }
  }

  /** Counts every node's dependencies and inverts the edges, whatever order
      the map is ranged over in. */
  method BuildDependencyIndex(g: Graph) returns (indegree: map<Key, nat>, reverse: map<Key, seq<Key>>)
    ensures Indexes(g, indegree, reverse)
  {
    indegree, reverse := map[], map[];
    var left := g.Keys;
    ghost var h: Graph := map[];
    while left != {}
      invariant left <= g.Keys
      invariant h == map n | n in g && n !in left :: g[n]
      invariant Indexes(h, indegree, reverse)
    {
      var node :| node in left;
      var deps := g[node];
      ghost var h0 := h;
      if node !in indegree {
        indegree := indegree[node := 0];
      }
      h := h[node := []];
      StartNode(h0, node, indegree, reverse);
      for j := 0 to |deps|
        invariant h == h0[node := deps[..j]]
        invariant Indexes(h, indegree, reverse)
      {
        assert deps[..j + 1] == deps[..j] + [deps[j]];
        indegree, reverse := AddEdge(h, node, deps[j], indegree, reverse);
        h := h[node := h[node] + [deps[j]]];
      }
      assert deps[..|deps|] == deps;
      left := left - {node};
    }
    assert h == g;
  }

  lemma StartNode(h: Graph, node: Key, indegree: map<Key, nat>, reverse: map<Key, seq<Key>>)
    requires node !in h && node in indegree
    requires node !in indegree || Indexes(h, indegree, reverse) ||
             exists before: map<Key, nat> :: node !in before && indegree == before[node := 0] &&
                  Indexes(h, before, reverse)
    ensures Indexes(h[node := []], indegree, reverse)
  {
    var h' := h[node := []];
    forall n: Key ensures n in indegree <==> IsNode(h', n) {
      if m: Key :| m in h && n in h[m] { assert m in h' && n in h'[m]; }
      if m: Key :| m in h' && n in h'[m] { assert m in h && n in h[m]; }
    }
    assert forall n: Key :: Deps(h', n) == Deps(h, n);
  }

  datatype Result = Ok(levels: seq<seq<Key>>) | HasACycle

  // Between two levels: everything below is done and `current` is what it frees.
  ghost predicate AtBoundary(g: Graph, done: set<Key>, current: seq<Key>, levels: seq<seq<Key>>,
                             indegree: map<Key, nat>) {
    && Layered(g, levels)
    && (forall n: Key :: n in done <==> Below(levels, |levels|, n))
    && (forall n: Key :: n in indegree <==> IsNode(g, n))
    && (forall n: Key {:trigger indegree[n]} :: n in indegree ==> indegree[n] == Open(Deps(g, n), done))
    && Frees(g, done, current, indegree)
    && (levels != [] ==> forall n: Key {:trigger RestsOn(g, levels[|levels| - 1], n)} ::
         n in current ==> RestsOn(g, levels[|levels| - 1], n))
  }

  // `next` lists once each node outside `done` that has no open dependency.
  ghost predicate Frees(g: Graph, done: set<Key>, next: seq<Key>, indegree: map<Key, nat>) {
    && Distinct(next)
    && (forall n: Key {:trigger n in next} :: n in next <==> n in indegree && n !in done && indegree[n] == 0)
  }

  // While a level is being processed: the nodes in `closed` are installed, and
  // the parents in `pending` have yet to be told so.
  ghost predicate Within(g: Graph, done: set<Key>, level: seq<Key>, next: seq<Key>, closed: set<Key>,
                         pending: multiset<Key>, indegree: map<Key, nat>)
  {
    && (forall n: Key :: n in indegree <==> IsNode(g, n))
    && (forall n: Key {:trigger indegree[n]} :: n in indegree ==> indegree[n] == Open(Deps(g, n), closed) + pending[n])
    && Distinct(next)
    && (forall n: Key {:trigger n in next} ::
          n in next <==> n in indegree && n !in done && n !in level && indegree[n] == 0)
    && (forall n: Key {:trigger RestsOn(g, level, n)} :: n in next ==> RestsOn(g, level, n))
  }

  lemma AppendLevel(g: Graph, done: set<Key>, current: seq<Key>, levels: seq<seq<Key>>, indegree: map<Key, nat>)
    requires AtBoundary(g, done, current, levels, indegree)
    ensures Layered(g, levels + [current])
    ensures forall n: Key :: n in done || n in current <==> Below(levels + [current], |levels| + 1, n)
  {
    var next := levels + [current];
    assert forall k: nat :: k < |levels| ==> next[k] == levels[k];
    forall n: Key ensures n in done || n in current <==> Below(next, |levels| + 1, n) {
      if n in done {
        var j: nat :| j < |levels| && n in levels[j];
        assert n in next[j];
      }
      if n in current { assert n in next[|levels|]; }
    }
    forall k: nat, n: Key | k < |next| && n in next[k]
      ensures Fits(g, next, k, n)
    {
      if k == |levels| {
        OpenZero(Deps(g, n), done);
        forall d: Key | d in Deps(g, n) ensures Below(next, k, d) {
          var j: nat :| j < |levels| && d in levels[j];
          assert d in next[j];
        }
      } else {
        assert Fits(g, levels, k, n);
        forall d: Key | d in Deps(g, n) ensures Below(next, k, d) {
          var j: nat :| j < k && j < |levels| && d in levels[j];
          assert d in next[j];
        }
      }
    }
    forall k: nat, l: nat, n: Key | k < |next| && l < |next| && n in next[k] && n in next[l] ensures k == l {
      assert k < |levels| ==> Below(levels, |levels|, n);
      assert l < |levels| ==> Below(levels, |levels|, n);
    }
  }

  // A node above the level being processed that depends on some of it.
  ghost predicate Waits(g: Graph, done: set<Key>, level: seq<Key>, indegree: map<Key, nat>, n: Key) {
    n in indegree && n !in done && n !in level && RestsOn(g, level, n)
  }

  // Tells one parent that one of its dependencies is installed.
  method TellParent(ghost g: Graph, ghost done: set<Key>, ghost level: seq<Key>, ghost closed: set<Key>,
                    ghost pending: multiset<Key>, child: Key, indegree0: map<Key, nat>, next0: seq<Key>)
    returns (indegree: map<Key, nat>, next: seq<Key>)
    requires Within(g, done, level, next0, closed, pending, indegree0)
    requires pending[child] > 0 && Waits(g, done, level, indegree0, child)
    ensures Within(g, done, level, next, closed, pending - multiset{child}, indegree)
    ensures indegree.Keys == indegree0.Keys
  {
    indegree, next := indegree0[child := indegree0[child] - 1], next0;
    assert child !in next0;
    if indegree[child] == 0 {
      next := next + [child];
    }
    assert forall n: Key :: n in next <==> n in next0 || (n == child && indegree[child] == 0);
    assert forall n: Key :: n != child && n in indegree ==> indegree[n] == indegree0[n];
  }

  // Tells every parent of a node that one dependency is installed.
  method TellParents(ghost g: Graph, ghost done: set<Key>, ghost level: seq<Key>, ghost closed: set<Key>,
                     parents: seq<Key>, indegree0: map<Key, nat>, next0: seq<Key>)
    returns (indegree: map<Key, nat>, next: seq<Key>)
    requires forall n: Key {:trigger Waits(g, done, level, indegree0, n)} ::
              n in parents ==> Waits(g, done, level, indegree0, n)
    requires Within(g, done, level, next0, closed, multiset(parents), indegree0)
    ensures Within(g, done, level, next, closed, multiset{}, indegree)
    ensures indegree.Keys == indegree0.Keys
  {
    indegree, next := indegree0, next0;
    ghost var pending := multiset(parents);
    assert parents[0..] == parents;
    for j := 0 to |parents|
      invariant indegree.Keys == indegree0.Keys
      invariant pending == multiset(parents[j..])
      invariant Within(g, done, level, next, closed, pending, indegree)
    {
      var child := parents[j];
      assert parents[j..] == [child] + parents[j + 1..];
      assert Waits(g, done, level, indegree0, child);
      indegree, next := TellParent(g, done, level, closed, pending, child, indegree, next);
      pending := pending - multiset{child};
    }
  }

  // Installing `node` closes it and leaves its parents to be told.
  lemma CloseNode(g: Graph, done: set<Key>, level: seq<Key>, closed: set<Key>, node: Key, parents: seq<Key>,
                  indegree: map<Key, nat>, next: seq<Key>)
    requires node in level && node !in closed
    requires forall n: Key :: multiset(parents)[n] == multiset(Deps(g, n))[node]
    requires Within(g, done, level, next, closed, multiset{}, indegree)
    ensures Within(g, done, level, next, closed + {node}, multiset(parents), indegree)
  {
    forall n: Key ensures Open(Deps(g, n), closed + {node}) + multiset(parents)[n] == Open(Deps(g, n), closed) {
      OpenAfter(Deps(g, n), closed, node);
    }
  }

  lemma ParentWaits(g: Graph, done: set<Key>, level: seq<Key>, closed: set<Key>, node: Key, parents: seq<Key>,
                    indegree: map<Key, nat>, child: Key)
    requires node in level && node !in closed && child in parents
    requires multiset(parents)[child] == multiset(Deps(g, child))[node]
    requires forall n: Key :: n in indegree <==> IsNode(g, n)
    requires child in indegree && (child in level || child in done) ==> Open(Deps(g, child), closed) == 0
    ensures Waits(g, done, level, indegree, child)
  {
    assert multiset(parents)[child] > 0;
    assert node in Deps(g, child);
    assert IsNode(g, child);
    OpenZero(Deps(g, child), closed);
  }

  // Everything placed so far, the current level included, has no open dependency.
  ghost predicate Settled(g: Graph, placed: set<Key>, closed: set<Key>) {
    forall n: Key :: n in placed ==> Open(Deps(g, n), closed) == 0
  }

  // Tells the parents of every node of a level and collects the next level.
  method ProcessLevel(ghost g: Graph, ghost done: set<Key>, level: seq<Key>, reverse: map<Key, seq<Key>>,
                      indegree0: map<Key, nat>)
    returns (indegree: map<Key, nat>, next: seq<Key>)
    requires Inverts(g, reverse)
    requires Distinct(level)
    requires forall n: Key :: n in level ==> n !in done
    requires Settled(g, done + Elems(level), done)
    requires Within(g, done, level, [], done, multiset{}, indegree0)
    ensures Within(g, done, level, next, done + Elems(level), multiset{}, indegree)
    ensures indegree.Keys == indegree0.Keys
  {
    ghost var placed := done + Elems(level);
    ghost var closed := done;
    indegree, next := indegree0, [];
    for i := 0 to |level|
      invariant closed == done + Elems(level[..i])
      invariant indegree.Keys == indegree0.Keys
      invariant Settled(g, placed, closed)
      invariant Within(g, done, level, next, closed, multiset{}, indegree)
    {
      var node := level[i];
      var parents := Parents(reverse, node);
      assert node !in closed;
      forall n: Key | n in parents ensures Waits(g, done, level, indegree, n) {
        ParentWaits(g, done, level, closed, node, parents, indegree, n);
      }
      CloseNode(g, done, level, closed, node, parents, indegree, next);
      indegree, next := TellParents(g, done, level, closed + {node}, parents, indegree, next);
      forall n: Key | n in placed ensures Open(Deps(g, n), closed + {node}) == 0 {
        OpenAfter(Deps(g, n), closed, node);
      }
      assert level[..i + 1] == level[..i] + [node];
      closed := closed + {node};
    }
    assert level[..|level|] == level;
  }

  lemma FirstBoundary(g: Graph, indegree: map<Key, nat>, roots: seq<Key>)
    requires forall n: Key :: n in indegree <==> IsNode(g, n)
    requires forall n: Key :: n in indegree ==> indegree[n] == |Deps(g, n)|
    requires Distinct(roots)
    requires forall n: Key :: n in roots <==> n in indegree && indegree[n] == 0
    ensures AtBoundary(g, {}, roots, [], indegree)
  {
    forall n: Key | n in indegree ensures indegree[n] == Open(Deps(g, n), {}) { OpenNone(Deps(g, n)); }
  }

  // Processing a level leads from one boundary to the next.
  lemma NextBoundary(g: Graph, done: set<Key>, current: seq<Key>, levels: seq<seq<Key>>, indegree0: map<Key, nat>,
                     indegree: map<Key, nat>, next: seq<Key>)
    requires AtBoundary(g, done, current, levels, indegree0)
    requires Within(g, done, current, next, done + Elems(current), multiset{}, indegree)
    ensures AtBoundary(g, done + Elems(current), next, levels + [current], indegree)
  {
    AppendLevel(g, done, current, levels, indegree0);
    var done' := done + Elems(current);
    assert forall n: Key :: n in done' <==> n in done || n in current;
    assert (levels + [current])[|levels + [current]| - 1] == current;
  }

  lemma BoundarySettles(g: Graph, done: set<Key>, current: seq<Key>, levels: seq<seq<Key>>, indegree: map<Key, nat>)
    requires AtBoundary(g, done, current, levels, indegree)
    ensures Settled(g, done + Elems(current), done)
    ensures Within(g, done, current, [], done, multiset{}, indegree)
    ensures done <= indegree.Keys && Elems(current) <= indegree.Keys - done
  {
    forall n: Key | n in done + Elems(current) ensures Open(Deps(g, n), done) == 0 {
      DoneIsClosed(g, levels, done, n, current, indegree);
    }
    forall n: Key | n in done ensures n in indegree {
      var k: nat :| k < |levels| && n in levels[k];
      assert Fits(g, levels, k, n);
    }
  }

  // The nodes left outside `done` shrink by the size of the level.
  lemma LevelShrinks(g: Graph, done: set<Key>, current: seq<Key>, levels: seq<seq<Key>>, indegree: map<Key, nat>)
    requires AtBoundary(g, done, current, levels, indegree)
    ensures |indegree.Keys - (done + Elems(current))| == |indegree.Keys - done| - |current|
  {
    BoundarySettles(g, done, current, levels, indegree);
    LevelSize(current);
    DifferenceSize(indegree.Keys, done, Elems(current));
  }

  lemma DifferenceSize(all: set<Key>, a: set<Key>, b: set<Key>)
    requires b <= all - a
    ensures |all - (a + b)| == |all - a| - |b|
  {
    assert all - (a + b) == (all - a) - b;
  }

  // One pass of the outer loop.
  method PeelLevel(ghost g: Graph, ghost done: set<Key>, current: seq<Key>, ghost levels: seq<seq<Key>>,
                   reverse: map<Key, seq<Key>>, indegree0: map<Key, nat>)
    returns (indegree: map<Key, nat>, next: seq<Key>)
    requires Inverts(g, reverse) && AtBoundary(g, done, current, levels, indegree0)
    ensures AtBoundary(g, done + Elems(current), next, levels + [current], indegree)
    ensures indegree.Keys == indegree0.Keys
  {
    BoundarySettles(g, done, current, levels, indegree0);
    indegree, next := ProcessLevel(g, done, current, reverse, indegree0);
    NextBoundary(g, done, current, levels, indegree0, indegree, next);
  }

  // With nothing freed, either every node has its level or what is left
  // depends only on what is left.
  lemma AtTheEnd(g: Graph, done: set<Key>, levels: seq<seq<Key>>, indegree: map<Key, nat>)
    requires AtBoundary(g, done, [], levels, indegree)
    ensures Layered(g, levels)
    ensures if indegree.Keys - done == {} then Covers(g, levels) && !Cyclic(g) else Cyclic(g)
  {
    if indegree.Keys - done == {} {
      forall n: Key | IsNode(g, n) ensures Below(levels, |levels|, n) {
        assert n in indegree;
        assert n !in indegree.Keys - done;
      }
      LayeredIsAcyclic(g, levels);
    } else {
      var stuck := indegree.Keys - done;
      forall n: Key | n in stuck ensures Meets(g, stuck, n) {
        assert n !in [];
        OpenZero(Deps(g, n), done);
        var d :| d in Deps(g, n) && d !in done;
        assert IsNode(g, d);
      }
      StuckIsCyclic(g, stuck);
    }
  }

  /** Peels off level after level of nodes whose dependencies are all placed. */
  method TopologicalLevels(ghost g: Graph, indegree0: map<Key, nat>, reverse: map<Key, seq<Key>>) returns (r: Result)
    requires Indexes(g, indegree0, reverse)
    ensures r.Ok? <==> !Cyclic(g)
    ensures r.Ok? ==> Layered(g, r.levels) && Covers(g, r.levels)
  {
    var indegree := indegree0;
    var current := Roots(indegree);
    var levels: seq<seq<Key>> := [];
    var remaining := |indegree|;
    ghost var done: set<Key> := {};
    FirstBoundary(g, indegree, current);
    assert indegree.Keys - done == indegree.Keys;
    while |current| > 0
      invariant AtBoundary(g, done, current, levels, indegree)
      invariant remaining == |indegree.Keys - done|
      decreases remaining
    {
      LevelShrinks(g, done, current, levels, indegree);
      var next;
      indegree, next := PeelLevel(g, done, current, levels, reverse, indegree);
      levels := levels + [current];
      remaining := remaining - |current|;
      done := done + Elems(current);
      current := next;
    }
    assert current == [];
    AtTheEnd(g, done, levels, indegree);
    if remaining > 0 {
      return HasACycle;
    }
    return Ok(levels);
  }

  // The nodes with no dependency, in the order the map happens to be ranged over.
  method Roots(indegree: map<Key, nat>) returns (current: seq<Key>)
    ensures Distinct(current)
    ensures forall n: Key :: n in current <==> n in indegree && indegree[n] == 0
  {
    current := [];
    var left := indegree.Keys;
    while left != {}
      invariant left <= indegree.Keys
      invariant Distinct(current)
      invariant forall n: Key :: n in current <==> n in indegree && n !in left && indegree[n] == 0
    {
      var node :| node in left;
      if indegree[node] == 0 { current := current + [node]; }
      left := left - {node};
    }
  }

  function Elems(s: seq<Key>): set<Key> { set n | n in s }

  lemma {:induction false} LevelSize(level: seq<Key>)
    requires Distinct(level)
    ensures |Elems(level)| == |level|
  {
    if level == [] {
      assert Elems(level) == {};
    } else {
      var rest := level[..|level| - 1];
      LevelSize(rest);
      assert level == rest + [level[|level| - 1]];
      assert Elems(level) == Elems(rest) + {level[|level| - 1]};
    }
  }

  lemma DoneIsClosed(g: Graph, levels: seq<seq<Key>>, done: set<Key>, n: Key, level: seq<Key>, indegree: map<Key, nat>)
    requires AtBoundary(g, done, level, levels, indegree) && (n in done || n in level)
    ensures Open(Deps(g, n), done) == 0
  {
    if n in done {
      var k: nat :| k < |levels| && n in levels[k];
      assert Fits(g, levels, k, n);
      forall d: Key | d in Deps(g, n) ensures d in done {
        assert Below(levels, k, d);
        assert Below(levels, |levels|, d);
      }
      OpenZero(Deps(g, n), done);
    }
  }

  /** The level index succeeds exactly on acyclic graphs; its levels hold each
      key and each dependency once, above everything it depends on. */
  method BuildInstallLevels(g: Graph) returns (r: Result)
    ensures r.Ok? <==> !Cyclic(g)
    ensures r.Ok? ==> Layered(g, r.levels) && Covers(g, r.levels)
  {
    var indegree, reverse := BuildDependencyIndex(g);
    r := TopologicalLevels(g, indegree, reverse);
  }
}
