/**
 Role resolution (internal/galaxy/collections/role_resolve.go:49-169 and
 194-254): roles are resolved level by level, each level concurrently and in any
 order of completion, and merged in input order. The reference is a plain
 first-in-first-out walk that resolves one request at a time and lets the first
 declaration of a name win.
 */
module RoleWalk {
  import opened Wrappers

  // What a requirement or a dependency asks for.
  datatype Request = Request(name: string, src: string, version: string)

  // A dependency as a role's metadata declares it.
  datatype Dependency = Local | OfCollection | Installed(request: Request) | Unreadable

  datatype Answer = Pinned(version: string, deps: seq<Dependency>) | Unresolved(why: string)

  // How each request resolves, and whether dependencies are walked at all.
  datatype World = World(answers: Request -> Answer, noDeps: bool)

  datatype Role = Role(request: Request, version: string, declared: seq<Dependency>)

  datatype Resolution = Resolution(roles: map<string, Role>, order: seq<string>)

  datatype Failure = RoleFailed(name: string, why: string) | TooManyRoles | BadDependency(name: string)

  const MAX_ROLES := 1000

  // ---------------------------------------------- dependencies of a role

  function Wanted(declared: seq<Dependency>): Option<seq<Request>> {
    if declared == [] then Some([])
    else
      var rest := Wanted(declared[1..]);
      match declared[0]
      case Unreadable => None
      case Installed(request) => if rest.Some? then Some([request] + rest.value) else None
      case _ => rest
  }

  function Next(world: World, declared: seq<Dependency>): Option<seq<Request>> {
    if world.noDeps then Some([]) else Wanted(declared)
  }

  // roleDependencies
  method RoleDependencies(world: World, declared: seq<Dependency>) returns (next: Option<seq<Request>>)
    ensures next == Next(world, declared)
  {
    if world.noDeps { return Some([]); }
    var out := [];
    var i := 0;
    assert declared[i..] == declared;
    while i < |declared|
      invariant i <= |declared|
      invariant Wanted(declared).Some? == Wanted(declared[i..]).Some?
      invariant Wanted(declared).Some? ==> Wanted(declared).value == out + Wanted(declared[i..]).value
    {
      assert declared[i..][1..] == declared[i + 1..];
      match declared[i] {
        case Unreadable => return None;
        case Installed(request) => out := out + [request];
        case _ =>
      }
      i := i + 1;
    }
    assert declared[i..] == [] && out + [] == out;
    next := Some(out);
  }

  /** What is wanted of one dependency after another: the requests of the installed
      ones in the order declared, nothing of local roles and of roles of collections,
      and no answer at all when one of them cannot be read. */
  lemma {:induction false} WantedInOrder(a: seq<Dependency>, b: seq<Dependency>)
    ensures Wanted(a + b) ==
            if Wanted(a).Some? && Wanted(b).Some? then Some(Wanted(a).value + Wanted(b).value) else None
    ensures forall d: Dependency :: Wanted([d]) ==
              if d.Unreadable? then None else Some(if d.Installed? then [d.request] else [])
    ensures Wanted([]) == Some([])
  {
    forall d: Dependency
      ensures Wanted([d]) == if d.Unreadable? then None else Some(if d.Installed? then [d.request] else [])
    {
      assert [d][1..] == [] && Wanted([]) == Some([]);
      if d.Installed? { assert [d.request] + [] == [d.request]; }
    }
    if a == [] {
      assert a + b == b;
      assert Wanted(b).Some? ==> [] + Wanted(b).value == Wanted(b).value;
    } else {
      WantedInOrder(a[1..], b);
      assert (a + b)[1..] == a[1..] + b;
      if a[0].Installed? && Wanted(a + b).Some? {
        assert [a[0].request] + (Wanted(a[1..]).value + Wanted(b).value) == Wanted(a).value + Wanted(b).value;
      }
    }
  }

  // --------------------------------------------------- the plain walk

  const EMPTY := Resolution(map[], [])

  function Add(res: Resolution, request: Request, answer: Answer): Resolution
    requires answer.Pinned?
  {
    Resolution(res.roles[request.name := Role(request, answer.version, answer.deps)], res.order + [request.name])
  }

  // One request at a time; the first declaration of a name wins.
  function Fifo(world: World, queue: seq<Request>, res: Resolution): Result<Resolution, Failure>
    requires |res.roles| <= MAX_ROLES
    decreases MAX_ROLES - |res.roles|, |queue|
  {
    if queue == [] then Ok(res)
    else if queue[0].name in res.roles then Fifo(world, queue[1..], res)
    else
      var answer := world.answers(queue[0]);
      if answer.Unresolved? then Err(RoleFailed(queue[0].name, answer.why))
      else
        var grown := Add(res, queue[0], answer);
        if |grown.roles| > MAX_ROLES then Err(TooManyRoles)
        else
          var next := Next(world, answer.deps);
          if next.None? then Err(BadDependency(queue[0].name)) else Fifo(world, queue[1..] + next.value, grown)
  }

  // ------------------------------------------------- dropping duplicates

  // The requests of a level whose name is free when their turn comes.
  function Firsts(taken: set<string>, level: seq<Request>): (out: seq<Request>)
    ensures out != [] ==> out[0].name !in taken
    decreases |level|
  {
    if level == [] then []
    else if level[0].name in taken then Firsts(taken, level[1..])
    else [level[0]] + Firsts(taken + {level[0].name}, level[1..])
  }

  // Distinct names, none of them taken.
  ghost predicate Fresh(taken: set<string>, level: seq<Request>) {
    && (forall i: nat :: i < |level| ==> level[i].name !in taken)
    && (forall i: nat, j: nat :: i < j < |level| ==> level[i].name != level[j].name)
  }

  lemma {:induction false} FirstsAreFresh(taken: set<string>, level: seq<Request>)
    ensures Fresh(taken, Firsts(taken, level))
    decreases |level|
  {
    if level != [] {
      FirstsAreFresh(if level[0].name in taken then taken else taken + {level[0].name}, level[1..]);
    }
  }

  // dedupeRoleLevel
  method DedupeRoleLevel(taken: map<string, Role>, level: seq<Request>) returns (out: seq<Request>)
    ensures out == Firsts(taken.Keys, level)
  {
    out := [];
    var inLevel: set<string> := {};
    var i := 0;
    assert level[i..] == level && taken.Keys + inLevel == taken.Keys;
    while i < |level|
      invariant i <= |level|
      invariant Firsts(taken.Keys, level) == out + Firsts(taken.Keys + inLevel, level[i..])
    {
      assert level[i..][1..] == level[i + 1..];
      if level[i].name !in taken && level[i].name !in inLevel {
        assert taken.Keys + inLevel + {level[i].name} == taken.Keys + (inLevel + {level[i].name});
        inLevel := inLevel + {level[i].name};
        out := out + [level[i]];
      }
      i := i + 1;
    }
    assert level[i..] == [];
  }

  ghost predicate AsksFor(queue: seq<Request>, name: string) {
    exists i: nat :: i < |queue| && queue[i].name == name
  }

  // A request whose name is taken, or is asked for earlier in the queue, does
  // not matter.
  lemma {:induction false} DropDuplicate(world: World, a: seq<Request>, x: Request, b: seq<Request>, res: Resolution)
    requires |res.roles| <= MAX_ROLES
    requires x.name in res.roles || AsksFor(a, x.name)
    ensures Fifo(world, a + [x] + b, res) == Fifo(world, a + b, res)
    decreases MAX_ROLES - |res.roles|, |a|
  {
    var with, without := a + [x] + b, a + b;
    if a == [] {
      assert with[1..] == without;
    } else {
      assert with[1..] == a[1..] + [x] + b && without[1..] == a[1..] + b;
      assert forall i: nat :: 0 < i < |a| ==> a[i] == a[1..][i - 1];
      if a[0].name in res.roles {
        DropDuplicate(world, a[1..], x, b, res);
      } else {
        var answer := world.answers(a[0]);
        if answer.Pinned? {
          var grown, next := Add(res, a[0], answer), Next(world, answer.deps);
          if |grown.roles| <= MAX_ROLES && next.Some? {
            assert with[1..] + next.value == a[1..] + [x] + (b + next.value);
            assert without[1..] + next.value == a[1..] + (b + next.value);
            DropDuplicate(world, a[1..], x, b + next.value, grown);
          }
        }
      }
    }
  }

  // Names that will be taken when what is kept of the level so far is done.
  ghost predicate Doomed(taken: set<string>, kept: seq<Request>, res: Resolution) {
    forall n :: n in taken ==> n in res.roles || AsksFor(kept, n)
  }

  lemma DoomedGrows(taken: set<string>, kept: seq<Request>, x: Request, res: Resolution)
    requires Doomed(taken, kept, res)
    ensures Doomed(taken + {x.name}, kept + [x], res)
  {
    var more := kept + [x];
    assert more[|kept|] == x;
    forall n | n in taken + {x.name} ensures n in res.roles || AsksFor(more, n) {
      if n !in res.roles && n != x.name {
        var i: nat :| i < |kept| && kept[i].name == n;
        assert more[i] == kept[i];
      }
    }
  }

  lemma {:induction false} DropDuplicates(world: World, kept: seq<Request>, level: seq<Request>, taken: set<string>,
                                          res: Resolution)
    requires |res.roles| <= MAX_ROLES && Doomed(taken, kept, res)
    ensures Fifo(world, kept + level, res) == Fifo(world, kept + Firsts(taken, level), res)
    decreases |level|
  {
    if level != [] {
      var x, rest := level[0], level[1..];
      if x.name in taken {
        assert kept + level == kept + [x] + rest;
        DropDuplicate(world, kept, x, rest, res);
        DropDuplicates(world, kept, rest, taken, res);
      } else {
        DoomedGrows(taken, kept, x, res);
        DropDuplicates(world, kept + [x], rest, taken + {x.name}, res);
        assert kept + level == kept + [x] + rest;
        assert kept + Firsts(taken, level) == kept + [x] + Firsts(taken + {x.name}, rest);
      }
    }
  }

  // ----------------------------------------------------- one level at once

  // An order in which the workers finish.
  ghost predicate Schedule(order: seq<nat>, n: nat) {
    && (forall k: nat :: k < |order| ==> order[k] < n)
    && (forall i: nat :: i < n ==> i in order)
  }

  ghost predicate AllPinned(world: World, level: seq<Request>) {
    forall i: nat :: i < |level| ==> world.answers(level[i]).Pinned?
  }

  // The first request that does not resolve.
  ghost predicate Stuck(world: World, level: seq<Request>, i: nat) {
    && i < |level| && world.answers(level[i]).Unresolved?
    && forall j: nat :: j < i ==> world.answers(level[j]).Pinned?
  }

  function FirstUnresolved(world: World, level: seq<Request>): (r: Option<nat>)
    ensures r.None? ==> AllPinned(world, level)
    ensures r.Some? ==> Stuck(world, level, r.value)
  {
    if level == [] then None
    else if world.answers(level[0]).Unresolved? then Some(0)
    else
      var rest := FirstUnresolved(world, level[1..]);
      if rest.None? then None else Some(rest.value + 1)
  }

  function Failed(world: World, x: Request): Failure
    requires world.answers(x).Unresolved?
  {
    RoleFailed(x.name, world.answers(x).why)
  }

  // resolveRoleLevel: answers in input order, or the first failure in input
  // order, whatever order the workers finish in.
  method ResolveRoleLevel(world: World, level: seq<Request>, order: seq<nat>) returns (r: Result<seq<Answer>, Failure>)
    requires Schedule(order, |level|)
    ensures r.Ok? ==> |r.value| == |level| && AllPinned(world, level)
    ensures r.Ok? ==> forall i: nat :: i < |level| ==> r.value[i] == world.answers(level[i])
    ensures r.Err? ==> exists i: nat :: Stuck(world, level, i) && r.error == Failed(world, level[i])
  {
    var answers: seq<Answer> := seq(|level|, (i: nat) => Unresolved(""));
    var k := 0;
    while k < |order|
      invariant k <= |order| && |answers| == |level|
      invariant forall j: nat :: j < k ==> answers[order[j]] == world.answers(level[order[j]])
    {
      answers := answers[order[k] := world.answers(level[order[k]])];
      k := k + 1;
    }
    forall i: nat | i < |level| ensures answers[i] == world.answers(level[i]) {
      assert i in order;
      var j: nat :| j < |order| && order[j] == i;
    }
    var i := 0;
    while i < |level|
      invariant i <= |level|
      invariant forall j: nat :: j < i ==> world.answers(level[j]).Pinned?
    {
      if answers[i].Unresolved? {
        assert Stuck(world, level, i);
        return Err(RoleFailed(level[i].name, answers[i].why));
      }
      i := i + 1;
    }
    r := Ok(answers);
  }

  // The resolution so far, and the requests of the next level.
  datatype Round = Round(res: Resolution, queue: seq<Request>)

  // Taking in one level's answers in input order.
  function Merge(world: World, level: seq<Request>, queue: seq<Request>, res: Resolution): (r: Result<Round, Failure>)
    requires |res.roles| <= MAX_ROLES && AllPinned(world, level)
    ensures r.Ok? ==> |res.roles| <= |r.value.res.roles| <= MAX_ROLES
    ensures r.Ok? && level != [] && level[0].name !in res.roles ==> |res.roles| < |r.value.res.roles|
    ensures level == [] ==> r == Ok(Round(res, queue))
    decreases |level|
  {
    if level == [] then Ok(Round(res, queue))
    else
      var answer := world.answers(level[0]);
      var grown := Add(res, level[0], answer);
      AddGrows(res, level[0], answer);
      if |grown.roles| > MAX_ROLES then Err(TooManyRoles)
      else
        var next := Next(world, answer.deps);
        if next.None? then Err(BadDependency(level[0].name))
        else
          assert forall i: nat :: i < |level| - 1 ==> level[1..][i] == level[i + 1];
          Merge(world, level[1..], queue + next.value, grown)
  }

  lemma AddGrows(res: Resolution, x: Request, answer: Answer)
    requires answer.Pinned?
    ensures |Add(res, x, answer).roles| == |res.roles| + if x.name in res.roles then 0 else 1
  {
    if x.name in res.roles { assert Add(res, x, answer).roles.Keys == res.roles.Keys; }
  }

  // What the level walk comes to from a queue on: each level is deduplicated,
  // resolved as a whole, and only then merged.
  function LevelWalk(world: World, queue: seq<Request>, res: Resolution): Result<Resolution, Failure>
    requires |res.roles| <= MAX_ROLES
    decreases MAX_ROLES - |res.roles|, |queue|
  {
    if queue == [] then Ok(res)
    else
      var level := Firsts(res.roles.Keys, queue);
      var stuck := FirstUnresolved(world, level);
      if stuck.Some? then Err(Failed(world, level[stuck.value]))
      else
        var merged := Merge(world, level, [], res);
        if merged.Err? then Err(merged.error) else LevelWalk(world, merged.value.queue, merged.value.res)
  }

  // Merging is the plain walk over a level that resolves as a whole, its failures
  // included.
  lemma {:induction false} MergeIsFifo(world: World, level: seq<Request>, queue: seq<Request>, res: Resolution)
    requires |res.roles| <= MAX_ROLES && Fresh(res.roles.Keys, level) && AllPinned(world, level)
    ensures match Merge(world, level, queue, res)
            case Err(e) => Fifo(world, level + queue, res) == Err(e)
            case Ok(m) => Fifo(world, level + queue, res) == Fifo(world, m.queue, m.res)
    decreases |level|
  {
    if level == [] {
      assert level + queue == queue;
    } else {
      TakeOne(world, level, queue, res);
      var answer := world.answers(level[0]);
      var grown, next := Add(res, level[0], answer), Next(world, answer.deps);
      if |grown.roles| <= MAX_ROLES && next.Some? {
        forall i: nat | i < |level| - 1 ensures world.answers(level[1..][i]).Pinned? {
          assert level[1..][i] == level[i + 1];
        }
        MergeIsFifo(world, level[1..], queue + next.value, grown);
      }
    }
  }

  // The plain walk's next turn, with part of a level still ahead of it.
  lemma TakeOne(world: World, level: seq<Request>, queue: seq<Request>, res: Resolution)
    requires |res.roles| <= MAX_ROLES && level != [] && Fresh(res.roles.Keys, level) && world.answers(level[0]).Pinned?
    ensures var answer := world.answers(level[0]);
            var grown, next := Add(res, level[0], answer), Next(world, answer.deps);
            && |grown.roles| == |res.roles| + 1
            && Fresh(grown.roles.Keys, level[1..])
            && Fifo(world, level + queue, res) ==
                 if |grown.roles| > MAX_ROLES then Err(TooManyRoles)
                 else if next.None? then Err(BadDependency(level[0].name))
                 else Fifo(world, level[1..] + (queue + next.value), grown)
  {
    var answer := world.answers(level[0]);
    var grown, next := Add(res, level[0], answer), Next(world, answer.deps);
    assert (level + queue)[1..] == level[1..] + queue;
    if next.Some? { assert (level + queue)[1..] + next.value == level[1..] + (queue + next.value); }
    forall j: nat | j < |level| - 1 ensures level[1..][j] == level[j + 1] {}
  }

  // ------------------------------------------------ when both walks agree

  // A level that does not resolve as a whole, and the roles found before it.
  datatype Stop = Stop(level: seq<Request>, found: Resolution)

  // The level the level walk stops at because a request of it does not resolve.
  function StoppedAt(world: World, queue: seq<Request>, res: Resolution): (r: Option<Stop>)
    requires |res.roles| <= MAX_ROLES
    ensures r.Some? ==> FirstUnresolved(world, r.value.level).Some?
    decreases MAX_ROLES - |res.roles|, |queue|
  {
    if queue == [] then None
    else
      var level := Firsts(res.roles.Keys, queue);
      if FirstUnresolved(world, level).Some? then Some(Stop(level, res))
      else
        var merged := Merge(world, level, [], res);
        if merged.Err? then None else StoppedAt(world, merged.value.queue, merged.value.res)
  }

  // Nothing before the first request that does not resolve stops the plain walk:
  // there is room for those roles, and their metadata can be read.
  predicate ClearWay(world: World, stop: Stop)
    requires FirstUnresolved(world, stop.level).Some?
  {
    var i := FirstUnresolved(world, stop.level).value;
    && |stop.found.roles| + i <= MAX_ROLES
    && forall j: nat :: j < i ==> Next(world, world.answers(stop.level[j]).deps).Some?
  }

  // At a level that does not resolve as a whole the plain walk fails too, and for
  // the same reason exactly when its way there is clear.
  lemma {:induction false} StuckLevel(world: World, level: seq<Request>, queue: seq<Request>, res: Resolution)
    requires |res.roles| <= MAX_ROLES && Fresh(res.roles.Keys, level) && FirstUnresolved(world, level).Some?
    ensures Fifo(world, level + queue, res).Err?
    ensures Fifo(world, level + queue, res) == Err(Failed(world, level[FirstUnresolved(world, level).value])) <==>
            ClearWay(world, Stop(level, res))
    decreases |level|
  {
    var i := FirstUnresolved(world, level).value;
    if i > 0 {
      TakeOne(world, level, queue, res);
      var answer := world.answers(level[0]);
      var grown, next := Add(res, level[0], answer), Next(world, answer.deps);
      assert forall j: nat :: j < |level| - 1 ==> level[1..][j] == level[j + 1];
      if |grown.roles| <= MAX_ROLES && next.Some? {
        StuckLevel(world, level[1..], queue + next.value, grown);
        ClearWayOneOn(world, level, res);
      }
    }
  }

  lemma ClearWayOneOn(world: World, level: seq<Request>, res: Resolution)
    requires FirstUnresolved(world, level).Some? && FirstUnresolved(world, level).value > 0
    requires level[0].name !in res.roles && Next(world, world.answers(level[0]).deps).Some?
    ensures FirstUnresolved(world, level[1..]).Some?
    ensures ClearWay(world, Stop(level, res)) <==>
            ClearWay(world, Stop(level[1..], Add(res, level[0], world.answers(level[0]))))
  {
    var i := FirstUnresolved(world, level).value;
    var grown := Add(res, level[0], world.answers(level[0]));
    AddGrows(res, level[0], world.answers(level[0]));
    assert forall j: nat :: j < i ==> level[j] == if j == 0 then level[0] else level[1..][j - 1];
    assert forall j: nat :: j < i - 1 ==> level[1..][j] == level[j + 1];
  }

  /** The level walk against the plain one: they succeed alike, with the same roles
      in the same order, and fail alike. They fail for the same reason unless the
      level walk stops at a level it cannot resolve; then exactly when every role of
      that level before the first that does not resolve still has room and readable
      metadata. */
  lemma {:induction false} WalksAgree(world: World, queue: seq<Request>, res: Resolution)
    requires |res.roles| <= MAX_ROLES
    ensures LevelWalk(world, queue, res).Ok? <==> Fifo(world, queue, res).Ok?
    ensures var stop := StoppedAt(world, queue, res);
            LevelWalk(world, queue, res) == Fifo(world, queue, res) <==> stop.None? || ClearWay(world, stop.value)
    decreases MAX_ROLES - |res.roles|, |queue|
  {
    if queue != [] {
      var level := Firsts(res.roles.Keys, queue);
      FirstsAreFresh(res.roles.Keys, queue);
      DropDuplicates(world, [], queue, res.roles.Keys, res);
      assert [] + queue == queue && [] + level == level && level + [] == level;
      if FirstUnresolved(world, level).Some? {
        StuckLevel(world, level, [], res);
      } else {
        MergeIsFifo(world, level, [], res);
        var merged := Merge(world, level, [], res);
        if merged.Ok? { WalksAgree(world, merged.value.queue, merged.value.res); }
      }
    }
  }

  // The merge of resolveRoles.
  method MergeLevel(world: World, level: seq<Request>, answers: seq<Answer>, found: Resolution)
    returns (r: Result<Round, Failure>)
    requires |found.roles| <= MAX_ROLES && AllPinned(world, level) && |answers| == |level|
    requires forall i: nat :: i < |level| ==> answers[i] == world.answers(level[i])
    ensures r == Merge(world, level, [], found)
  {
    var res := found;
    var queue := [];
    var i := 0;
    assert level[i..] == level;
    while i < |level|
      invariant i <= |level| && |res.roles| <= MAX_ROLES && AllPinned(world, level[i..])
      invariant Merge(world, level, [], found) == Merge(world, level[i..], queue, res)
    {
      assert level[i..][1..] == level[i + 1..] && level[i..][0] == level[i];
      res := Add(res, level[i], answers[i]);
      if |res.roles| > MAX_ROLES { return Err(TooManyRoles); }
      var next := RoleDependencies(world, answers[i].deps);
      if next.None? { return Err(BadDependency(level[i].name)); }
      queue := queue + next.value;
      i := i + 1;
    }
    r := Ok(Round(res, queue));
  }

  // resolveRoles: whatever order the fetches of each level finish in, the result
  // is the level walk's.
  method ResolveRoles(world: World, roots: seq<Request>, schedules: nat -> nat -> seq<nat>)
    returns (r: Result<Resolution, Failure>)
    requires forall round: nat, n: nat :: Schedule(schedules(round)(n), n)
    ensures r == LevelWalk(world, roots, EMPTY)
    ensures r.Ok? <==> Fifo(world, roots, EMPTY).Ok?
    ensures r == Fifo(world, roots, EMPTY) <==>
              StoppedAt(world, roots, EMPTY).None? || ClearWay(world, StoppedAt(world, roots, EMPTY).value)
  {
    WalksAgree(world, roots, EMPTY);
    var res := EMPTY;
    var queue := roots;
    var round: nat := 0;
    while queue != []
      invariant |res.roles| <= MAX_ROLES
      invariant LevelWalk(world, roots, EMPTY) == LevelWalk(world, queue, res)
      decreases MAX_ROLES - |res.roles|, |queue|
    {
      var level := DedupeRoleLevel(res.roles, queue);
      var answers := ResolveRoleLevel(world, level, schedules(round)(|level|));
      if answers.Err? {
        ghost var i: nat :| Stuck(world, level, i) && answers.error == Failed(world, level[i]);
        return Err(answers.error);
      }
      var merged := MergeLevel(world, level, answers.value, res);
      if merged.Err? { return Err(merged.error); }
      res, queue := merged.value.res, merged.value.queue;
      round := round + 1;
    }
    r := Ok(res);
  }

  // --------------------------------------- what the plain walk comes to

  // Every listed name has its role, and is listed once.
  ghost predicate Listed(res: Resolution) {
    && (forall n :: n in res.roles <==> n in res.order)
    && (forall i: nat, j: nat :: i < j < |res.order| ==> res.order[i] != res.order[j])
    && (forall n :: n in res.roles ==> res.roles[n].request.name == n)
  }

  lemma AddKeepsListed(res: Resolution, request: Request, answer: Answer)
    requires Listed(res) && answer.Pinned? && request.name !in res.roles
    ensures Listed(Add(res, request, answer))
  {
    var order := res.order + [request.name];
    forall i: nat, j: nat | i < j < |order| ensures order[i] != order[j] {
      assert order[i] in res.order;
    }
  }

  /** No name is listed twice, whatever the roles declare. */
  lemma {:induction false} NamesListedOnce(world: World, queue: seq<Request>, res: Resolution)
    requires |res.roles| <= MAX_ROLES && Listed(res)
    ensures var r := Fifo(world, queue, res);
            r.Ok? ==> Listed(r.value) && |r.value.roles| <= MAX_ROLES && res.order <= r.value.order
    decreases MAX_ROLES - |res.roles|, |queue|
  {
    if queue != [] {
      if queue[0].name in res.roles {
        NamesListedOnce(world, queue[1..], res);
      } else {
        var answer := world.answers(queue[0]);
        if answer.Pinned? {
          var grown, next := Add(res, queue[0], answer), Next(world, answer.deps);
          AddKeepsListed(res, queue[0], answer);
          if |grown.roles| <= MAX_ROLES && next.Some? {
            NamesListedOnce(world, queue[1..] + next.value, grown);
          }
        }
      }
    }
  }

  /** The first request for a free name is the one that is resolved. */
  lemma {:induction false} FirstDeclarationWins(world: World, queue: seq<Request>, res: Resolution, i: nat)
    requires |res.roles| <= MAX_ROLES && i < |queue| && Fifo(world, queue, res).Ok?
    requires queue[i].name !in res.roles && forall j: nat :: j < i ==> queue[j].name != queue[i].name
    ensures var roles := Fifo(world, queue, res).value.roles;
            queue[i].name in roles && roles[queue[i].name].request == queue[i]
    decreases MAX_ROLES - |res.roles|, |queue|
  {
    if queue[0].name in res.roles {
      assert queue[1..][i - 1] == queue[i] && forall j: nat :: j < i - 1 ==> queue[1..][j] == queue[j + 1];
      FirstDeclarationWins(world, queue[1..], res, i - 1);
    } else {
      var answer := world.answers(queue[0]);
      var grown, next := Add(res, queue[0], answer), Next(world, answer.deps).value;
      if i == 0 {
        Kept(world, queue[1..] + next, grown, queue[0].name);
      } else {
        assert forall j: nat :: j < i ==> (queue[1..] + next)[j] == queue[j + 1];
        FirstDeclarationWins(world, queue[1..] + next, grown, i - 1);
      }
    }
  }

  // A role once taken in stays as it is.
  lemma {:induction false} Kept(world: World, queue: seq<Request>, res: Resolution, name: string)
    requires |res.roles| <= MAX_ROLES && Fifo(world, queue, res).Ok? && name in res.roles
    ensures var roles := Fifo(world, queue, res).value.roles;
            name in roles && roles[name] == res.roles[name]
    decreases MAX_ROLES - |res.roles|, |queue|
  {
    if queue != [] {
      if queue[0].name in res.roles {
        Kept(world, queue[1..], res, name);
      } else {
        var answer := world.answers(queue[0]);
        Kept(world, queue[1..] + Next(world, answer.deps).value, Add(res, queue[0], answer), name);
      }
    }
  }

  // Whoever waits is resolved under its name in the end, by itself or another.
  lemma {:induction false} Waiting(world: World, queue: seq<Request>, res: Resolution, i: nat)
    requires |res.roles| <= MAX_ROLES && Fifo(world, queue, res).Ok? && i < |queue|
    ensures queue[i].name in Fifo(world, queue, res).value.roles
    decreases MAX_ROLES - |res.roles|, |queue|
  {
    if queue[0].name in res.roles {
      if i == 0 { Kept(world, queue[1..], res, queue[0].name); } else { Waiting(world, queue[1..], res, i - 1); }
    } else {
      var answer := world.answers(queue[0]);
      var grown, rest := Add(res, queue[0], answer), queue[1..] + Next(world, answer.deps).value;
      if i == 0 { Kept(world, rest, grown, queue[0].name); } else { Waiting(world, rest, grown, i - 1); }
    }
  }

  // What a resolved role answers for: itself and everything it declares.
  ghost predicate Settled(world: World, role: Role, roles: map<string, Role>) {
    && world.answers(role.request) == Pinned(role.version, role.declared)
    && Next(world, role.declared).Some?
    && forall k: nat :: k < |Next(world, role.declared).value| ==> Next(world, role.declared).value[k].name in roles
  }

  lemma {:induction false} NewRolesSettled(world: World, queue: seq<Request>, res: Resolution, name: string)
    requires |res.roles| <= MAX_ROLES && Fifo(world, queue, res).Ok?
    ensures var roles := Fifo(world, queue, res).value.roles;
            name in roles && name !in res.roles ==> Settled(world, roles[name], roles)
    decreases MAX_ROLES - |res.roles|, |queue|
  {
    if queue != [] {
      if queue[0].name in res.roles {
        NewRolesSettled(world, queue[1..], res, name);
      } else {
        var answer := world.answers(queue[0]);
        var grown, next := Add(res, queue[0], answer), Next(world, answer.deps).value;
        var rest := queue[1..] + next;
        NewRolesSettled(world, rest, grown, name);
        if name == queue[0].name {
          Kept(world, rest, grown, name);
          forall k: nat | k < |next| ensures next[k].name in Fifo(world, rest, grown).value.roles {
            assert rest[|queue| - 1 + k] == next[k];
            Waiting(world, rest, grown, |queue| - 1 + k);
          }
        }
      }
    }
  }

  // Requests that stay among themselves when dependencies are followed.
  ghost predicate ClosedUnder(world: World, asked: iset<Request>) {
    forall x :: x in asked && world.answers(x).Pinned? && Next(world, world.answers(x).deps).Some? ==>
      forall d :: d in Next(world, world.answers(x).deps).value ==> d in asked
  }

  lemma {:induction false} NewRolesAsked(world: World, queue: seq<Request>, res: Resolution, asked: iset<Request>,
                                         name: string)
    requires |res.roles| <= MAX_ROLES && Fifo(world, queue, res).Ok? && ClosedUnder(world, asked)
    requires forall i: nat :: i < |queue| ==> queue[i] in asked
    ensures var roles := Fifo(world, queue, res).value.roles;
            name in roles && name !in res.roles ==> roles[name].request in asked
    decreases MAX_ROLES - |res.roles|, |queue|
  {
    if queue != [] {
      if queue[0].name in res.roles {
        NewRolesAsked(world, queue[1..], res, asked, name);
      } else {
        var answer := world.answers(queue[0]);
        var grown, rest := Add(res, queue[0], answer), queue[1..] + Next(world, answer.deps).value;
        NewRolesAsked(world, rest, grown, asked, name);
        if name == queue[0].name { Kept(world, rest, grown, name); }
      }
    }
  }

  /** A successful resolution lists every name once, has every root, is closed
      under what its roles declare, holds each role as its own request resolves,
      and nothing that no chain of declarations from the roots asked for. */
  lemma ResolutionIsClosed(world: World, roots: seq<Request>, asked: iset<Request>)
    requires Fifo(world, roots, EMPTY).Ok? && ClosedUnder(world, asked)
    requires forall i: nat :: i < |roots| ==> roots[i] in asked
    ensures var res := Fifo(world, roots, EMPTY).value;
            && Listed(res) && |res.roles| <= MAX_ROLES
            && (forall i: nat :: i < |roots| ==> roots[i].name in res.roles)
            && (forall n :: n in res.roles ==> Settled(world, res.roles[n], res.roles) && res.roles[n].request in asked)
  {
    NamesListedOnce(world, roots, EMPTY);
    forall i: nat | i < |roots| ensures roots[i].name in Fifo(world, roots, EMPTY).value.roles {
      Waiting(world, roots, EMPTY, i);
    }
    var roles := Fifo(world, roots, EMPTY).value.roles;
    forall n | n in roles ensures Settled(world, roles[n], roles) && roles[n].request in asked {
      NewRolesSettled(world, roots, EMPTY, n);
      NewRolesAsked(world, roots, EMPTY, asked, n);
    }
  }

  // A request that is asked for, and why the walk may not take it in.
  ghost predicate Spoils(world: World, x: Request, e: Failure) {
    match e
    case RoleFailed(name, why) => x.name == name && world.answers(x) == Unresolved(why)
    case BadDependency(name) =>
      x.name == name && world.answers(x).Pinned? && !world.noDeps && Unreadable in world.answers(x).deps
    case TooManyRoles => false
  }

  lemma {:induction false} UnwantedIsUnreadable(declared: seq<Dependency>)
    ensures Wanted(declared) == None <==> Unreadable in declared
  {
    if declared != [] {
      UnwantedIsUnreadable(declared[1..]);
      assert declared == [declared[0]] + declared[1..];
    }
  }

  // How far the names of what is asked for can take the walk.
  ghost predicate Among(asked: iset<Request>, names: set<string>) {
    forall x :: x in asked ==> x.name in names
  }

  lemma {:induction false} FailsForAReason(world: World, queue: seq<Request>, res: Resolution, asked: iset<Request>,
                                           names: set<string>)
    requires |res.roles| <= MAX_ROLES && Fifo(world, queue, res).Err? && ClosedUnder(world, asked)
    requires forall i: nat :: i < |queue| ==> queue[i] in asked
    requires Among(asked, names) && res.roles.Keys <= names
    ensures var e := Fifo(world, queue, res).error;
            if e.TooManyRoles? then |names| > MAX_ROLES else exists x :: x in asked && Spoils(world, x, e)
    decreases MAX_ROLES - |res.roles|, |queue|
  {
    var x := queue[0];
    assert x in asked;
    if x.name in res.roles {
      FailsForAReason(world, queue[1..], res, asked, names);
    } else {
      var answer := world.answers(x);
      if answer.Unresolved? {
        assert Spoils(world, x, Fifo(world, queue, res).error);
      } else {
        var grown, next := Add(res, x, answer), Next(world, answer.deps);
        assert grown.roles.Keys <= names;
        if |grown.roles| > MAX_ROLES {
          Smaller(grown.roles.Keys, names);
        } else if next.None? {
          UnwantedIsUnreadable(answer.deps);
          assert Spoils(world, x, Fifo(world, queue, res).error);
        } else {
          FailsForAReason(world, queue[1..] + next.value, grown, asked, names);
        }
      }
    }
  }

  lemma Smaller(a: set<string>, b: set<string>)
    requires a <= b
    ensures |a| <= |b|
  {
    assert b == a + (b - a);
  }

  /** A resolution only fails for a reason: a request that a chain of declarations
      from the roots asks for does not resolve or declares what cannot be read, and is
      the one named, or they ask for more names than a project may have. */
  lemma ResolutionFailsForAReason(world: World, roots: seq<Request>, asked: iset<Request>, names: set<string>)
    requires ClosedUnder(world, asked) && Among(asked, names)
    requires forall i: nat :: i < |roots| ==> roots[i] in asked
    ensures var r := Fifo(world, roots, EMPTY);
            && (r.Err? && !r.error.TooManyRoles? ==> exists x :: x in asked && Spoils(world, x, r.error))
            && (|names| <= MAX_ROLES ==> r != Err(TooManyRoles))
            && (|names| <= MAX_ROLES && Resolvable(world, asked) ==> r.Ok?)
  {
    var r := Fifo(world, roots, EMPTY);
    if r.Err? { FailsForAReason(world, roots, EMPTY, asked, names); }
  }

  ghost predicate Resolvable(world: World, asked: iset<Request>) {
    forall x :: x in asked ==>
      world.answers(x).Pinned? && (world.noDeps || Unreadable !in world.answers(x).deps)
  }

  /** They do differ: of two roots the second does not resolve, which is what the
      level walk reports, and the metadata of the first cannot be read, which is
      where the plain walk stops. */
  lemma CausesMayDiffer()
    ensures exists world: World, a: Request, b: Request ::
              && LevelWalk(world, [a, b], EMPTY) == Err(RoleFailed(b.name, "gone"))
              && Fifo(world, [a, b], EMPTY) == Err(BadDependency(a.name))
              && a.name != b.name
  {
    var a, b := Request("a", "", ""), Request("b", "", "");
    var world := World(x => if x == a then Pinned("1", [Unreadable]) else Unresolved("gone"), false);
    var roots := [a, b];
    assert a.name[0] != b.name[0];
    assert Next(world, [Unreadable]) == None;
    assert Fifo(world, roots, EMPTY) == Err(BadDependency(a.name));
    assert roots[1..] == [b] && [b][1..] == [];
    assert Firsts({} + {a.name}, [b]) == [b] + Firsts({} + {a.name} + {b.name}, []);
    var level := Firsts({}, roots);
    assert EMPTY.roles.Keys == {} && level == [a] + [b];
    assert FirstUnresolved(world, level[1..]) == Some(0) by { assert level[1..] == [b]; }
    assert LevelWalk(world, roots, EMPTY) == Err(Failed(world, b));
  }

  // ------------------------------------------- names of the dependencies

  // The declared dependencies that are in the resolution, in order.
  function DepNames(declared: seq<Dependency>, name: string, names: set<string>): seq<string> {
    if declared == [] then []
    else
      var before := DepNames(declared[..|declared| - 1], name, names);
      match declared[|declared| - 1]
      case Installed(d) => if d.name in names && d.name != name then before + [d.name] else before
      case _ => before
  }

  // fillRoleDeps: every role with a pin in the memo gets its names, whatever order the
  // roles are ranged over in.
  method FillRoleDeps(roles: map<string, Role>, memo: map<string, seq<Dependency>>)
    returns (filled: map<string, seq<string>>)
    ensures filled.Keys == roles.Keys
    ensures forall n: string :: n in roles ==>
              filled[n] == if n in memo then DepNames(memo[n], n, roles.Keys) else []
  {
    filled := map[];
    var left := roles.Keys;
    while left != {}
      invariant left <= roles.Keys && filled.Keys == roles.Keys - left
      invariant forall n: string :: n in filled ==>
                  filled[n] == if n in memo then DepNames(memo[n], n, roles.Keys) else []
    {
      var name :| name in left;
      var names := [];
      if name in memo { names := NamesOf(memo[name], name, roles); }
      filled := filled[name := names];
      left := left - {name};
    }
  }

  // One role's part of it.
  method NamesOf(declared: seq<Dependency>, name: string, roles: map<string, Role>) returns (names: seq<string>)
    ensures names == DepNames(declared, name, roles.Keys)
  {
    names := [];
    var i := 0;
    while i < |declared|
      invariant i <= |declared| && names == DepNames(declared[..i], name, roles.Keys)
    {
      assert declared[..i + 1][..i] == declared[..i];
      match declared[i] {
        case Installed(d) => if d.name in roles && d.name != name { names := names + [d.name]; }
        case _ =>
      }
      i := i + 1;
    }
    assert declared[..i] == declared;
  }

  // Some dependency asks for this name.
  ghost predicate Declares(declared: seq<Dependency>, n: string) {
    exists i: nat :: i < |declared| && declared[i].Installed? && declared[i].request.name == n
  }

  lemma {:induction false} WantedNames(declared: seq<Dependency>, i: nat)
    requires i < |declared| && declared[i].Installed? && Wanted(declared).Some?
    ensures exists k: nat :: k < |Wanted(declared).value| && Wanted(declared).value[k] == declared[i].request
  {
    if i > 0 {
      WantedNames(declared[1..], i - 1);
      var rest := Wanted(declared[1..]).value;
      var k: nat :| k < |rest| && rest[k] == declared[i].request;
      var all := Wanted(declared).value;
      assert rest[k] == all[if declared[0].Installed? then k + 1 else k];
    } else {
      assert Wanted(declared).value[0] == declared[0].request;
    }
  }

  lemma {:induction false} NamesAre(declared: seq<Dependency>, name: string, names: set<string>, n: string)
    ensures n in DepNames(declared, name, names) <==> n in names && n != name && Declares(declared, n)
  {
    if declared != [] {
      var init, last := declared[..|declared| - 1], declared[|declared| - 1];
      NamesAre(init, name, names, n);
      assert forall i: nat :: i < |init| ==> declared[i] == init[i];
      if last.Installed? && last.request.name == n { assert Declares(declared, n); }
      if Declares(init, n) {
        var i: nat :| i < |init| && init[i].Installed? && init[i].request.name == n;
        assert declared[i].Installed? && declared[i].request.name == n;
      }
    }
  }

  /** The names recorded for a resolved role are exactly what it declares but itself;
      where dependencies are not walked, those of them that were resolved anyway. */
  lemma RecordedAreDeclared(world: World, roots: seq<Request>, name: string, n: string)
    requires Fifo(world, roots, EMPTY).Ok? && name in Fifo(world, roots, EMPTY).value.roles
    ensures var roles := Fifo(world, roots, EMPTY).value.roles;
            n in DepNames(roles[name].declared, name, roles.Keys) <==>
            n != name && Declares(roles[name].declared, n) && (world.noDeps ==> n in roles)
  {
    var roles := Fifo(world, roots, EMPTY).value.roles;
    var declared := roles[name].declared;
    NewRolesSettled(world, roots, EMPTY, name);
    NamesAre(declared, name, roles.Keys, n);
    if !world.noDeps && Declares(declared, n) {
      var i: nat :| i < |declared| && declared[i].Installed? && declared[i].request.name == n;
      WantedNames(declared, i);
    }
  }
}
