/** What a worklist walk from some roots has to compute: the least closed set. */
module Closure {
  type Relation = iset<(string, string)>

  ghost predicate Closed(rel: Relation, s: set<string>) {
    forall a: string, b: string {:trigger (a, b) in rel} :: (a, b) in rel && a in s ==> b in s
  }

  // The least closed set that holds the start.
  ghost predicate IsClosure(rel: Relation, start: set<string>, s: set<string>) {
    && start <= s && Closed(rel, s)
    && forall t: set<string> {:trigger Closed(rel, t)} :: Closed(rel, t) && start <= t ==> s <= t
  }

  /** There is only one. */
  lemma ClosureIsUnique(rel: Relation, start: set<string>, s: set<string>, t: set<string>)
    requires IsClosure(rel, start, s) && IsClosure(rel, start, t)
    ensures s == t
  {
    assert Closed(rel, s) && Closed(rel, t);
  }

  // A walk under way: what is reached is followed up to the queue, and nothing is
  // there that need not be.
  ghost predicate Frontier(rel: Relation, start: set<string>, reached: set<string>, queue: seq<string>) {
    && (forall k: string :: k in start ==> k in reached || k in queue)
    && (forall a: string, b: string {:trigger (a, b) in rel} ::
          (a, b) in rel && a in reached ==> b in reached || b in queue)
    && (forall t: set<string> {:trigger Closed(rel, t)} :: Closed(rel, t) && start <= t ==>
          reached <= t && forall k: string :: k in queue ==> k in t)
  }

  function Elements(s: seq<string>): set<string> { set x | x in s }

  lemma FrontierBegin(rel: Relation, start: set<string>, reached: set<string>, roots: seq<string>)
    requires IsClosure(rel, start, reached)
    ensures Frontier(rel, start + Elements(roots), reached, roots)
  {}

  lemma FrontierDone(rel: Relation, start: set<string>, reached: set<string>)
    requires Frontier(rel, start, reached, [])
    ensures IsClosure(rel, start, reached)
  {}

  lemma FrontierSkip(rel: Relation, start: set<string>, reached: set<string>, queue: seq<string>)
    requires Frontier(rel, start, reached, queue) && queue != [] && queue[0] in reached
    ensures Frontier(rel, start, reached, queue[1..])
  {
    assert queue == [queue[0]] + queue[1..];
  }

  // Everything the next key leads to, unless already reached, and nothing else.
  ghost predicate Follows(rel: Relation, reached: set<string>, key: string, next: seq<string>) {
    && (forall b: string {:trigger (key, b) in rel} :: (key, b) in rel ==> b in reached || b in next)
    && (forall b: string :: b in next ==> (key, b) in rel)
  }

  lemma FrontierStep(rel: Relation, start: set<string>, reached: set<string>, queue: seq<string>, next: seq<string>)
    requires Frontier(rel, start, reached, queue) && queue != []
    requires Follows(rel, reached + {queue[0]}, queue[0], next)
    ensures Frontier(rel, start, reached + {queue[0]}, queue[1..] + next)
  {
    var key, rest := queue[0], queue[1..] + next;
    assert queue == [key] + queue[1..];
    forall t: set<string> | Closed(rel, t) && start <= t
      ensures reached + {key} <= t && forall k: string :: k in rest ==> k in t
    {
      assert key in queue;
    }
  }
}
