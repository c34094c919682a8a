/**
 The metadata cache (internal/galaxy/cache/api_cache.go:26-193): entries served
 while fresh, revalidated when expired, refetched when they do not decode. The
 origin may change at any moment and any number of readers run at once.

 Time passes in ticks. The origin's representation of a URL at instant t is
 past[t](url). A response, 200 or 304, speaks for some instant between the start
 of its request and its end (section 15.4.5 of RFC 9110 for the 304), a request
 ends within its budget, and an unconditional one is never answered 304. Clocks
 agree and do not run backwards.
 */
module ApiCache {
  import opened Wrappers

  type Url = string
  type Body = string
  type Origin = Url -> Body

  datatype Entry = Entry(url: Url, fetchedAt: int, body: Body)

  datatype Policy = Policy(read: bool, write: bool, ttl: nat)

  // Cache keys are hashes of URLs and may collide; `decodes` is json.Unmarshal.
  datatype Config = Config(keyOf: Url -> string, decodes: Body -> bool, budget: nat)

  // A request under way; `basis` is the entry a conditional one revalidates.
  datatype Request = Request(url: Url, since: nat, policy: Policy, basis: Option<Entry>)

  // What a caller was given: from the cache alone, or after a request.
  datatype Served = Served(url: Url, body: Body, at: nat, policy: Policy, fromCache: bool)

  datatype State = State(
    past: seq<Origin>,
    cache: map<string, Entry>,
    requests: map<nat, Request>,
    served: seq<Served>)
  {
    function Now(): int { |past| - 1 }
  }

  // A reply for instant t: the representation then, or that it is the basis's.
  datatype Reply = Fresh(t: nat) | NotModified(t: nat) | Failure

  datatype Step =
    | Tick(origin: Origin)
    | Read(id: nat, url: Url, policy: Policy)
    | Answer(id: nat, reply: Reply)

  // ------------------------------------------------------------- the code

  // The entry tryServeFromCache looks at, if it is valid and decodes.
  function Usable(c: Config, s: State, url: Url, policy: Policy): Option<Entry> {
    var key := c.keyOf(url);
    if policy.read && key in s.cache && s.cache[key].url == url &&
       s.cache[key].body != "" && c.decodes(s.cache[key].body)
    then Some(s.cache[key])
    else None
  }

  // Past its TTL, or from the future.
  predicate Expired(e: Entry, now: int, policy: Policy) {
    policy.ttl != 0 && (now - e.fetchedAt > policy.ttl || now - e.fetchedAt < 0)
  }

  function Store(c: Config, s: State, policy: Policy, e: Entry): map<string, Entry> {
    if policy.write then s.cache[c.keyOf(e.url) := e] else s.cache
  }

  predicate Can(c: Config, s: State, k: Step) {
    match k
    case Tick(_) => forall id :: id in s.requests ==> s.Now() < s.requests[id].since + c.budget
    case Read(id, _, _) => id !in s.requests
    case Answer(id, reply) =>
      && id in s.requests
      && var q := s.requests[id];
         match reply
         case Fresh(t) => q.since <= t <= s.Now()
         case NotModified(t) => q.since <= t <= s.Now() && q.basis.Some? && s.past[t](q.url) == q.basis.value.body
         case Failure => true
  }

  function Next(c: Config, s: State, k: Step): State
    requires s.past != [] && Can(c, s, k)
  {
    match k
    case Tick(origin) => s.(past := s.past + [origin])
    case Read(id, url, policy) =>
      var found := Usable(c, s, url, policy);
      if found.Some? && !Expired(found.value, s.Now(), policy) then
        s.(served := s.served + [Served(url, found.value.body, s.Now(), policy, true)])
      else
        s.(requests := s.requests[id := Request(url, s.Now(), policy, found)])
    case Answer(id, reply) =>
      var q := s.requests[id];
      var t := s.(requests := s.requests - {id});
      match reply
      case Failure => t
      case Fresh(at) =>
        var body := s.past[at](q.url);
        var stored := t.(cache := Store(c, s, q.policy, Entry(q.url, s.Now(), body)));
        var given := Served(q.url, body, s.Now(), q.policy, false);
        if c.decodes(body) then stored.(served := s.served + [given]) else stored
      case NotModified(_) =>
        var e := q.basis.value;
        t.(cache := Store(c, s, q.policy, e.(fetchedAt := s.Now())),
        served := s.served + [Served(q.url, e.body, s.Now(), q.policy, false)])
  }

  ghost predicate IsRun(c: Config, run: seq<State>, steps: seq<Step>) {
    && |run| == |steps| + 1
    && |run[0].past| == 1 && run[0].cache == map[] && run[0].requests == map[] && run[0].served == []
    && forall n: nat {:trigger steps[n]} :: n < |steps| ==>
         run[n].past != [] && Can(c, run[n], steps[n]) && run[n + 1] == Next(c, run[n], steps[n])
  }

  // ------------------------------------------------------------ freshness

  // The origin had this body at some instant no earlier than `from`, up to `to`.
  ghost predicate Was(past: seq<Origin>, url: Url, body: Body, from: int, to: int) {
    exists t: nat :: t < |past| && from <= t <= to && past[t](url) == body
  }

  // An entry's body was current during the request that ended at fetchedAt.
  ghost predicate Backed(c: Config, past: seq<Origin>, key: string, e: Entry) {
    c.keyOf(e.url) == key && e.fetchedAt < |past| && Was(past, e.url, e.body, e.fetchedAt - c.budget, e.fetchedAt)
  }

  ghost predicate InTime(c: Config, s: State, q: Request) {
    && q.since <= s.Now() <= q.since + c.budget
    && (q.basis.Some? ==> q.basis.value.url == q.url && c.decodes(q.basis.value.body))
  }

  // How old what a caller was given may be.
  function Age(c: Config, v: Served): Option<int> {
    if !v.fromCache then Some(c.budget)
    else if v.policy.ttl != 0 then Some(v.policy.ttl + c.budget)
    else None
  }

  ghost predicate Kept(c: Config, past: seq<Origin>, v: Served) {
    Was(past, v.url, v.body, if Age(c, v).Some? then v.at - Age(c, v).value else 0, v.at)
  }

  ghost predicate Inv(c: Config, s: State) {
    && s.past != []
    && (forall key {:trigger key in s.cache} :: key in s.cache ==> Backed(c, s.past, key, s.cache[key]))
    && (forall id {:trigger id in s.requests} :: id in s.requests ==> InTime(c, s, s.requests[id]))
    && (forall i: nat {:trigger s.served[i]} :: i < |s.served| ==> Kept(c, s.past, s.served[i]))
  }

  lemma WasLater(past: seq<Origin>, origin: Origin, url: Url, body: Body, from: int, to: int)
    requires Was(past, url, body, from, to)
    ensures Was(past + [origin], url, body, from, to)
  {
    var t: nat :| t < |past| && from <= t <= to && past[t](url) == body;
    assert (past + [origin])[t](url) == body;
  }

  lemma TickKeeps(c: Config, s: State, origin: Origin)
    requires Inv(c, s) && Can(c, s, Tick(origin))
    ensures Inv(c, Next(c, s, Tick(origin)))
  {
    var t := Next(c, s, Tick(origin));
    forall key | key in t.cache ensures Backed(c, t.past, key, t.cache[key]) {
      var e := s.cache[key];
      WasLater(s.past, origin, e.url, e.body, e.fetchedAt - c.budget, e.fetchedAt);
    }
    forall i: nat | i < |t.served| ensures Kept(c, t.past, t.served[i]) {
      var v := s.served[i];
      assert Kept(c, s.past, v);
      WasLater(s.past, origin, v.url, v.body, if Age(c, v).Some? then v.at - Age(c, v).value else 0, v.at);
    }
  }

  lemma WasWider(past: seq<Origin>, url: Url, body: Body, from: int, to: int, wider: int, later: int)
    requires Was(past, url, body, from, to) && wider <= from && to <= later
    ensures Was(past, url, body, wider, later)
  {
    var t: nat :| t < |past| && from <= t <= to && past[t](url) == body;
    assert past[t](url) == body;
  }

  lemma ServeKeeps(c: Config, s: State, url: Url, policy: Policy)
    requires Inv(c, s) && Usable(c, s, url, policy).Some?
    requires !Expired(Usable(c, s, url, policy).value, s.Now(), policy)
    ensures Kept(c, s.past, Served(url, Usable(c, s, url, policy).value.body, s.Now(), policy, true))
  {
    var e := Usable(c, s, url, policy).value;
    assert c.keyOf(url) in s.cache;
    var from := if policy.ttl != 0 then s.Now() - (policy.ttl + c.budget) else 0;
    if policy.ttl == 0 {
      var t: nat :| t < |s.past| && t <= e.fetchedAt && s.past[t](url) == e.body;
      assert s.past[t](url) == e.body && 0 <= t <= s.Now();
    } else {
      WasWider(s.past, url, e.body, e.fetchedAt - c.budget, e.fetchedAt, from, s.Now());
    }
  }

  lemma ReplyIsRecent(c: Config, s: State, id: nat, reply: Reply)
    requires Inv(c, s) && Can(c, s, Answer(id, reply)) && !reply.Failure?
    ensures var q := s.requests[id];
            var body := if reply.Fresh? then s.past[reply.t](q.url) else q.basis.value.body;
            && Was(s.past, q.url, body, s.Now() - c.budget, s.Now())
  {
    var q := s.requests[id];
    assert InTime(c, s, q);
    var body := if reply.Fresh? then s.past[reply.t](q.url) else q.basis.value.body;
    assert s.past[reply.t](q.url) == body;
  }

  lemma ReadKeeps(c: Config, s: State, id: nat, url: Url, policy: Policy)
    requires Inv(c, s) && Can(c, s, Read(id, url, policy))
    ensures Inv(c, Next(c, s, Read(id, url, policy)))
  {
    var found := Usable(c, s, url, policy);
    if found.Some? && !Expired(found.value, s.Now(), policy) { ServeKeeps(c, s, url, policy); }
  }

  lemma AnswerKeeps(c: Config, s: State, id: nat, reply: Reply)
    requires Inv(c, s) && Can(c, s, Answer(id, reply))
    ensures Inv(c, Next(c, s, Answer(id, reply)))
  {
    if !reply.Failure? { ReplyIsRecent(c, s, id, reply); }
  }

  lemma StepKeeps(c: Config, s: State, k: Step)
    requires Inv(c, s) && Can(c, s, k)
    ensures Inv(c, Next(c, s, k))
  {
    match k
    case Tick(origin) => TickKeeps(c, s, origin);
    case Read(id, url, policy) => ReadKeeps(c, s, id, url, policy);
    case Answer(id, reply) => AnswerKeeps(c, s, id, reply);
  }

  lemma {:induction false} Reachable(c: Config, run: seq<State>, steps: seq<Step>, n: nat)
    requires IsRun(c, run, steps) && n < |run|
    ensures Inv(c, run[n])
  {
    if n > 0 {
      Reachable(c, run, steps, n - 1);
      StepKeeps(c, run[n - 1], steps[n - 1]);
    }
  }

  /** In every run, whatever the origin and the other readers do: what a caller is
      given was the origin's representation at some instant, no older than one
      request budget when a request was made, than the TTL and one budget when the
      cache answered under a TTL. */
  lemma WhatIsServedIsFresh(c: Config, run: seq<State>, steps: seq<Step>, n: nat, i: nat)
    requires IsRun(c, run, steps) && n < |run| && i < |run[n].served|
    ensures var v := run[n].served[i];
            var oldest := if !v.fromCache then v.at - c.budget
                          else if v.policy.ttl != 0 then v.at - v.policy.ttl - c.budget
                          else 0;
            Was(run[n].past, v.url, v.body, oldest, v.at)
  {
    Reachable(c, run, steps, n);
    var v := run[n].served[i];
    assert Kept(c, run[n].past, v);
  }

  /** And every entry, at every moment, was current during the request it was last
      written by, for the URL it names; so a colliding key can never serve one URL
      the body of another. */
  lemma EntriesAreBacked(c: Config, run: seq<State>, steps: seq<Step>, n: nat, key: string)
    requires IsRun(c, run, steps) && n < |run| && key in run[n].cache
    ensures Backed(c, run[n].past, key, run[n].cache[key])
  {
    Reachable(c, run, steps, n);
  }

  // -------------------------------------------------- who is served, and when

  /** A read answers at once, without a request, exactly when its policy reads, the
      key's entry is for this URL, not empty and decodes, and its age is between zero
      and the TTL or the TTL is zero. Otherwise it hands over nothing and starts one
      request, which revalidates the entry if all it lacks is the age. */
  lemma ReadMeans(c: Config, s: State, id: nat, url: Url, policy: Policy)
    requires s.past != [] && Can(c, s, Read(id, url, policy))
    ensures
      var t := Next(c, s, Read(id, url, policy));
      var key := c.keyOf(url);
      var sound := key in s.cache && s.cache[key].url == url && s.cache[key].body != "" && c.decodes(s.cache[key].body);
      var young := policy.ttl == 0 || (sound && 0 <= |s.past| - 1 - s.cache[key].fetchedAt <= policy.ttl);
      && t.past == s.past && t.cache == s.cache
      && if policy.read && sound && young then
           && t.requests == s.requests
           && t.served == s.served + [Served(url, s.cache[key].body, |s.past| - 1, policy, true)]
         else
           && t.served == s.served
           && t.requests == s.requests[id := Request(url, |s.past| - 1, policy,
                if policy.read && sound then Some(s.cache[key]) else None)]
  {
  }

  // The reply's body is what the origin had at the instant it speaks for.
  function ReplyBody(s: State, id: nat, reply: Reply): Body
    requires id in s.requests && !reply.Failure? && reply.t < |s.past|
  {
    s.past[reply.t](s.requests[id].url)
  }

  /** An answered request is over. Unless it failed, its body is what the origin had
      at that instant: handed over once if it decodes, which a 304's always does, and
      stored, decodable or not, exactly under a writing policy. */
  lemma AnswerMeans(c: Config, s: State, id: nat, reply: Reply)
    requires Inv(c, s) && Can(c, s, Answer(id, reply))
    ensures
      var t := Next(c, s, Answer(id, reply));
      var q := s.requests[id];
      && t.past == s.past && t.requests == s.requests - {id}
      && if reply.Failure? then t.cache == s.cache && t.served == s.served
         else
           var body := ReplyBody(s, id, reply);
           var now := |s.past| - 1;
           && t.cache == (if q.policy.write then s.cache[c.keyOf(q.url) := Entry(q.url, now, body)] else s.cache)
           && t.served == s.served + if c.decodes(body) then [Served(q.url, body, now, q.policy, false)] else []
  {
    assert InTime(c, s, s.requests[id]);
  }

  // The step stores a reply under the key, and which entry that makes.
  predicate Wrote(c: Config, s: State, k: Step, key: string) {
    && k.Answer? && k.id in s.requests && !k.reply.Failure? && k.reply.t < |s.past|
    && s.requests[k.id].policy.write && c.keyOf(s.requests[k.id].url) == key
  }

  function Written(c: Config, s: State, k: Step, key: string): Entry
    requires Wrote(c, s, k, key)
  {
    Entry(s.requests[k.id].url, |s.past| - 1, ReplyBody(s, k.id, k.reply))
  }

  // Step n was the last before state m to store a reply under the key.
  ghost predicate LastWrite(c: Config, run: seq<State>, steps: seq<Step>, key: string, n: nat, m: nat)
    requires |run| == |steps| + 1 && m < |run|
  {
    && n < m && Wrote(c, run[n], steps[n], key)
    && forall k: nat :: n < k < m ==> !Wrote(c, run[k], steps[k], key)
  }

  lemma StepStores(c: Config, s: State, k: Step, key: string)
    requires Inv(c, s) && Can(c, s, k)
    ensures var t := Next(c, s, k);
            if Wrote(c, s, k, key) then key in t.cache && t.cache[key] == Written(c, s, k, key)
            else (key in t.cache <==> key in s.cache) && (key in s.cache ==> t.cache[key] == s.cache[key])
  {
    match k
    case Tick(_) =>
    case Read(id, url, policy) => ReadMeans(c, s, id, url, policy);
    case Answer(id, reply) => AnswerMeans(c, s, id, reply);
  }

  lemma LastWriteMoves(c: Config, run: seq<State>, steps: seq<Step>, key: string, n: nat, m: nat)
    requires |run| == |steps| + 1 && m < |steps|
    ensures LastWrite(c, run, steps, key, n, m + 1) <==>
            if Wrote(c, run[m], steps[m], key) then n == m else LastWrite(c, run, steps, key, n, m)
  {
    if LastWrite(c, run, steps, key, n, m + 1) && n != m { assert n < m; }
  }

  /** The cache holds, under every key, exactly what was last stored there. */
  lemma {:induction false} CacheIsLastWrite(c: Config, run: seq<State>, steps: seq<Step>, key: string, m: nat)
    requires IsRun(c, run, steps) && m < |run|
    ensures key in run[m].cache ==> exists n: nat :: LastWrite(c, run, steps, key, n, m)
    ensures forall n: nat :: LastWrite(c, run, steps, key, n, m) ==>
              key in run[m].cache && run[m].cache[key] == Written(c, run[n], steps[n], key)
  {
    if m > 0 {
      var p := m - 1;
      Reachable(c, run, steps, p);
      StepStores(c, run[p], steps[p], key);
      if Wrote(c, run[p], steps[p], key) {
        LastWriteMoves(c, run, steps, key, p, p);
        forall n: nat | LastWrite(c, run, steps, key, n, m) ensures n == p { LastWriteMoves(c, run, steps, key, n, p); }
      } else {
        CacheIsLastWrite(c, run, steps, key, p);
        forall n: nat ensures LastWrite(c, run, steps, key, n, m) == LastWrite(c, run, steps, key, n, p) {
          LastWriteMoves(c, run, steps, key, n, p);
        }
      }
    }
  }

  // The reply stored last is for this URL, can be handed out, and is young enough.
  ghost predicate Serves(c: Config, s: State, k: Step, now: int, url: Url, policy: Policy)
    requires Wrote(c, s, k, c.keyOf(url))
  {
    var e := Written(c, s, k, c.keyOf(url));
    e.url == url && e.body != "" && c.decodes(e.body) && (policy.ttl == 0 || now - e.fetchedAt <= policy.ttl)
  }

  /** In every run a read is served at once, with no request of its own, exactly when
      the last reply stored under its key was for its URL, decodes, and is no older
      than its TTL; and what it is served is what the origin had at the instant that
      reply spoke for. */
  lemma ServedAtOnce(c: Config, run: seq<State>, steps: seq<Step>, m: nat, id: nat, url: Url, policy: Policy)
    requires IsRun(c, run, steps) && m < |steps| && steps[m] == Read(id, url, policy)
    ensures run[m + 1].requests == run[m].requests <==>
            policy.read && exists n: nat :: LastWrite(c, run, steps, c.keyOf(url), n, m) &&
                                            Serves(c, run[n], steps[n], run[m].Now(), url, policy)
    ensures forall n: nat ::
              policy.read && LastWrite(c, run, steps, c.keyOf(url), n, m) &&
              Serves(c, run[n], steps[n], run[m].Now(), url, policy) ==>
                run[m + 1].served == run[m].served +
                  [Served(url, ReplyBody(run[n], steps[n].id, steps[n].reply), run[m].Now(), policy, true)]
  {
    var s, key := run[m], c.keyOf(url);
    Reachable(c, run, steps, m);
    CacheIsLastWrite(c, run, steps, key, m);
    ReadMeans(c, s, id, url, policy);
    assert id !in s.requests;
    if key in s.cache { assert Backed(c, s.past, key, s.cache[key]); }
  }

  /** When keys do not collide, what a writing reader fetched is what the next read of
      that URL within its TTL is served, if nobody stored a newer reply in between. */
  lemma FetchedIsServed(c: Config, run: seq<State>, steps: seq<Step>, n: nat, m: nat, id: nat, url: Url, policy: Policy)
    requires IsRun(c, run, steps) && n < m < |steps| && steps[m] == Read(id, url, policy) && policy.read
    requires Wrote(c, run[n], steps[n], c.keyOf(url)) && run[n].requests[steps[n].id].url == url
    requires forall u: Url, v: Url :: c.keyOf(u) == c.keyOf(v) ==> u == v
    requires forall k: nat :: n < k < m && Wrote(c, run[k], steps[k], c.keyOf(url)) ==>
               run[k].requests[steps[k].id].url != url
    requires c.decodes(ReplyBody(run[n], steps[n].id, steps[n].reply))
    requires ReplyBody(run[n], steps[n].id, steps[n].reply) != ""
    requires policy.ttl == 0 || run[m].Now() - run[n].Now() <= policy.ttl
    ensures run[m + 1].requests == run[m].requests
    ensures run[m + 1].served == run[m].served +
              [Served(url, ReplyBody(run[n], steps[n].id, steps[n].reply), run[m].Now(), policy, true)]
  {
    assert LastWrite(c, run, steps, c.keyOf(url), n, m);
    ServedAtOnce(c, run, steps, m, id, url, policy);
  }

  // --------------------------------------------------- every reader's fate

  // How many of the first n steps begin a read, and how many replies gave nothing.
  function Readers(steps: seq<Step>, n: nat): nat
    requires n <= |steps|
  {
    if n == 0 then 0 else Readers(steps, n - 1) + if steps[n - 1].Read? then 1 else 0
  }

  predicate GaveNothing(c: Config, s: State, k: Step) {
    k.Answer? && (k.reply.Failure? ||
                  (k.reply.Fresh? && k.id in s.requests && k.reply.t < |s.past| &&
                   !c.decodes(ReplyBody(s, k.id, k.reply))))
  }

  function Failed(c: Config, run: seq<State>, steps: seq<Step>, n: nat): nat
    requires n <= |steps| && |run| == |steps| + 1
  {
    if n == 0 then 0 else Failed(c, run, steps, n - 1) + if GaveNothing(c, run[n - 1], steps[n - 1]) then 1 else 0
  }

  /** Every reader was handed one body, waits for its request, or its fetch failed or
      brought a 200 that does not decode; nobody is answered twice or forgotten. */
  lemma {:induction false} EveryReaderIsAccountedFor(c: Config, run: seq<State>, steps: seq<Step>, n: nat)
    requires IsRun(c, run, steps) && n <= |steps|
    ensures Readers(steps, n) == |run[n].served| + |run[n].requests| + Failed(c, run, steps, n)
  {
    if n > 0 {
      var s, k := run[n - 1], steps[n - 1];
      EveryReaderIsAccountedFor(c, run, steps, n - 1);
      Reachable(c, run, steps, n - 1);
      match k
      case Tick(_) =>
      case Read(id, url, policy) =>
        ReadMeans(c, s, id, url, policy);
      case Answer(id, reply) =>
        AnswerMeans(c, s, id, reply);
        assert s.requests == (s.requests - {id})[id := s.requests[id]];
    }
  }
}
