/**
 The versions list pager (internal/galaxy/collections/resolve.go:322-407):
 offset pages, most of them fetched ahead by concurrent workers, against a walk
 that asks for one page after another. The server is any function from offset to
 answer, so its totals and page lengths may disagree with each other.
 */
module Pager {
  const VERSION_LIMIT := 100
  const MAX_VERSION_PAGES := 100

  datatype Page = Page(versions: seq<string>, total: int) | Bad(why: string)

  datatype Listing = Versions(all: seq<string>) | FetchFailed(why: string) | PagingExceeded

  type Server = nat -> Page

  // Whether a page ends the list.
  predicate Last(page: nat, answer: Page) {
    answer.Bad? || |answer.versions| < VERSION_LIMIT || 0 < answer.total <= (page + 1) * VERSION_LIMIT
  }

  // One page after another.
  function Walk(server: Server, page: nat, all: seq<string>): Listing
    decreases MAX_VERSION_PAGES - page
  {
    if page >= MAX_VERSION_PAGES then PagingExceeded
    else
      var answer := server(page * VERSION_LIMIT);
      if answer.Bad? then FetchFailed(answer.why)
      else if Last(page, answer) then Versions(all + answer.versions)
      else Walk(server, page + 1, all + answer.versions)
  }

  function OneAtATime(server: Server): Listing { Walk(server, 0, []) }

  // The first page alone says that the list is too long.
  predicate DeclaredTooLong(server: Server) {
    var first := server(0);
    !Last(0, first) && first.total > MAX_VERSION_PAGES * VERSION_LIMIT
  }

  // An order in which the workers finish: every index below n once.
  ghost predicate Schedule(order: seq<nat>, n: nat) {
    && (forall k: nat :: k < |order| ==> order[k] < n)
    && (forall i: nat :: i < n ==> i in order)
    && (forall j: nat, k: nat :: j < k < |order| ==> order[j] != order[k])
  }

  ghost predicate EachOnce(requests: seq<nat>) {
    forall j: nat, k: nat :: j < k < |requests| ==> requests[j] != requests[k]
  }

  // Requests for the pages below n, in any order.
  ghost predicate Asked(requests: seq<nat>, n: nat) {
    && EachOnce(requests)
    && (forall k: nat :: k < |requests| ==> requests[k] % VERSION_LIMIT == 0 && requests[k] < n * VERSION_LIMIT)
  }

  function Offset(page: nat): nat { page * VERSION_LIMIT }

  // Nothing past so many versions was asked for, but the first page.
  ghost predicate Within(requests: seq<nat>, size: nat) {
    forall k: nat :: k < |requests| ==> requests[k] == 0 || requests[k] < size
  }

  class VersionsPager {
    const server: Server
    var requests: seq<nat>

    constructor (server: Server)
      ensures this.server == server && requests == []
    {
      this.server := server;
      requests := [];
    }

    method FetchPage(offset: nat) returns (answer: Page)
      modifies this
      ensures answer == server(offset) && requests == old(requests) + [offset]
    {
      requests := requests + [offset];
      answer := server(offset);
    }

    // Every page the total schedules past page 0, in whatever order they come.
    method PrefetchScheduled(total: nat, order: seq<nat>) returns (results: seq<Page>)
      requires 0 < total && Schedule(order, (total - 1) / VERSION_LIMIT)
      requires requests == [0]
      modifies this
      ensures |results| == (total - 1) / VERSION_LIMIT
      ensures forall i: nat :: i < |results| ==> results[i] == server(Offset(i + 1))
      ensures Asked(requests, |results| + 1) && Within(requests, total)
    {
      var n := (total - 1) / VERSION_LIMIT;
      results := seq(n, (i: nat) => Bad(""));
      var k := 0;
      while k < |order|
        invariant k <= |order| && |results| == n && |requests| == k + 1 && requests[0] == 0
        invariant forall j: nat :: j < k ==> requests[j + 1] == Offset(order[j] + 1)
        invariant forall j: nat :: j < k ==> results[order[j]] == server(Offset(order[j] + 1))
      {
        var answer := FetchPage(Offset(order[k] + 1));
        results := results[order[k] := answer];
        k := k + 1;
      }
      forall i: nat | i < |results| ensures results[i] == server(Offset(i + 1)) {
        assert i in order;
        var j: nat :| j < |order| && order[j] == i;
      }
      forall j: nat | j < |requests| ensures requests[j] == if j == 0 then 0 else Offset(order[j - 1] + 1) {
        assert j > 0 ==> requests[(j - 1) + 1] == Offset(order[j - 1] + 1);
      }
    }

    // A page of the walk: from the schedule when it is there.
    method PageAt(page: nat, scheduled: seq<Page>) returns (answer: Page)
      requires 1 <= page && Asked(requests, if page <= |scheduled| then |scheduled| + 1 else page)
      requires forall i: nat :: i < |scheduled| ==> scheduled[i] == server(Offset(i + 1))
      modifies this
      ensures answer == server(Offset(page))
      ensures Asked(requests, if page < |scheduled| then |scheduled| + 1 else page + 1)
      ensures requests == old(requests) || requests == old(requests) + [Offset(page)]
    {
      if page <= |scheduled| { return scheduled[page - 1]; }
      answer := FetchPage(Offset(page));
    }

    // `list` is any list the server may page honestly.
    method WalkPages(first: seq<string>, scheduled: seq<Page>, ghost list: seq<string>) returns (listing: Listing)
      requires Asked(requests, |scheduled| + 1) && |scheduled| < MAX_VERSION_PAGES
      requires forall i: nat :: i < |scheduled| ==> scheduled[i] == server(Offset(i + 1))
      modifies this
      requires Honest(server, list) ==> VERSION_LIMIT < |list| && Within(requests, |list|)
      ensures listing == Walk(server, 1, first)
      ensures Asked(requests, MAX_VERSION_PAGES)
      ensures Honest(server, list) ==> Within(requests, |list|)
    {
      var all := first;
      var page := 1;
      while true
        invariant 1 <= page <= MAX_VERSION_PAGES
        invariant Asked(requests, if page <= |scheduled| then |scheduled| + 1 else page)
        invariant Walk(server, page, all) == Walk(server, 1, first)
        invariant Honest(server, list) ==> Offset(page) < |list| && Within(requests, |list|)
        decreases MAX_VERSION_PAGES - page
      {
        if page >= MAX_VERSION_PAGES { return PagingExceeded; }
        assert Honest(server, list) ==> HonestAt(server, list, page);
        var answer := PageAt(page, scheduled);
        if answer.Bad? { return FetchFailed(answer.why); }
        all := all + answer.versions;
        if |answer.versions| < VERSION_LIMIT { return Versions(all); }
        if answer.total > 0 && (page + 1) * VERSION_LIMIT >= answer.total { return Versions(all); }
        page := page + 1;
      }
    }

    // What collectAll returns, and which requests it makes; `order` is how the
    // workers for a declared total happen to finish.
    method CollectAll(orders: int -> seq<nat>, ghost list: seq<string>) returns (listing: Listing)
      requires requests == []
      requires forall total: int :: 0 < total ==> Schedule(orders(total), (total - 1) / VERSION_LIMIT)
      modifies this
      ensures listing == if DeclaredTooLong(server) then PagingExceeded else OneAtATime(server)
      ensures Asked(requests, MAX_VERSION_PAGES) && |requests| <= MAX_VERSION_PAGES
      ensures DeclaredTooLong(server) ==> requests == [0]
      // An honest server is asked for the first page and none past its list.
      ensures Honest(server, list) ==> Within(requests, |list|)
    {
      var first := FetchPage(0);
      assert Honest(server, list) ==> HonestAt(server, list, 0) && server(Offset(0)) == first;
      if first.Bad? { return FetchFailed(first.why); }
      if |first.versions| < VERSION_LIMIT || (first.total > 0 && VERSION_LIMIT >= first.total) {
        assert [] + first.versions == first.versions;
        return Versions(first.versions);
      }
      if first.total > MAX_VERSION_PAGES * VERSION_LIMIT { return PagingExceeded; }
      listing := CollectRest(first, orders(first.total), list);
      assert [] + first.versions == first.versions;
    }

    // Past a full first page: the scheduled pages, then the walk over them.
    method CollectRest(first: Page, order: seq<nat>, ghost list: seq<string>) returns (listing: Listing)
      requires requests == [0] && first == server(0) && !Last(0, first)
      requires first.total <= MAX_VERSION_PAGES * VERSION_LIMIT
      requires 0 < first.total ==> Schedule(order, (first.total - 1) / VERSION_LIMIT)
      requires Honest(server, list) ==> VERSION_LIMIT < |list| && first.total == |list|
      modifies this
      ensures listing == Walk(server, 1, first.versions)
      ensures Asked(requests, MAX_VERSION_PAGES) && |requests| <= MAX_VERSION_PAGES
      ensures Honest(server, list) ==> Within(requests, |list|)
    {
      var scheduled := [];
      if first.total > 0 { scheduled := PrefetchScheduled(first.total, order); }
      listing := WalkPages(first.versions, scheduled, list);
      AtMostPages(requests, MAX_VERSION_PAGES);
    }
  }

  // ---------------------------------------------------------- the requests

  // Distinct multiples of the page size below n pages: at most n of them.
  lemma {:induction false} AtMostPages(requests: seq<nat>, n: nat)
    requires Asked(requests, n)
    ensures |requests| <= n
    decreases n
  {
    if requests != [] {
      assert requests[0] < n * VERSION_LIMIT;
      var top := (n - 1) * VERSION_LIMIT;
      if top in requests {
        var k: nat :| k < |requests| && requests[k] == top;
        var rest := requests[..k] + requests[k + 1..];
        forall j: nat | j < |rest| ensures rest[j] % VERSION_LIMIT == 0 && rest[j] < (n - 1) * VERSION_LIMIT {
          assert rest[j] == requests[if j < k then j else j + 1];
        }
        AtMostPages(rest, n - 1);
      } else {
        forall j: nat | j < |requests| ensures requests[j] < (n - 1) * VERSION_LIMIT {
          assert requests[j] in requests;
        }
        AtMostPages(requests, n - 1);
      }
    }
  }

  // ------------------------------------------------------ when both agree

  // The outcome of the prefetching pager.
  function Collected(server: Server): Listing {
    if DeclaredTooLong(server) then PagingExceeded else OneAtATime(server)
  }

  // The walk reaches the page: none before it ends the list.
  ghost predicate Reaches(server: Server, page: nat) {
    forall k: nat :: k < page ==> !Last(k, server(Offset(k)))
  }

  lemma {:induction false} WalkExceeds(server: Server, page: nat, all: seq<string>)
    requires page <= MAX_VERSION_PAGES && Reaches(server, page)
    ensures Walk(server, page, all) == PagingExceeded <==> Reaches(server, MAX_VERSION_PAGES)
    decreases MAX_VERSION_PAGES - page
  {
    if page < MAX_VERSION_PAGES {
      assert Offset(page) == page * VERSION_LIMIT;
      if !Last(page, server(Offset(page))) {
        WalkExceeds(server, page + 1, all + server(Offset(page)).versions);
      }
    }
  }

  // The versions of the first pages, one after another.
  function Pages(server: Server, n: nat): seq<string> {
    if n == 0 then []
    else Pages(server, n - 1) + if server(Offset(n - 1)).Bad? then [] else server(Offset(n - 1)).versions
  }

  lemma {:induction false} WalkGoesOn(server: Server, page: nat, n: nat)
    requires page <= n < MAX_VERSION_PAGES && Reaches(server, n)
    ensures Walk(server, page, Pages(server, page)) == Walk(server, n, Pages(server, n))
    decreases n - page
  {
    if page < n {
      assert !Last(page, server(Offset(page)));
      WalkGoesOn(server, page + 1, n);
    }
  }

  /** What the walk returns, by the first page that ends the list: that page's failure
      if it failed, and else the versions of all pages up to it; the paging error if
      none of the pages that may be asked for ends it. */
  lemma WalkMeans(server: Server, n: nat)
    requires Reaches(server, n) && n < MAX_VERSION_PAGES && Last(n, server(Offset(n)))
    ensures OneAtATime(server) ==
            if server(Offset(n)).Bad? then FetchFailed(server(Offset(n)).why) else Versions(Pages(server, n + 1))
  {
    WalkGoesOn(server, 0, n);
  }

  lemma NoPageEndsIt(server: Server)
    ensures OneAtATime(server) == PagingExceeded <==> Reaches(server, MAX_VERSION_PAGES)
  {
    WalkExceeds(server, 0, []);
  }

  /** Prefetching gives what the walk gives, except when the first full page
      declares more than the walk may ask for while some later page would still
      have ended the list in time. */
  lemma PrefetchAgrees(server: Server)
    ensures Collected(server) == OneAtATime(server) <==>
            !DeclaredTooLong(server) || Reaches(server, MAX_VERSION_PAGES)
  {
    WalkExceeds(server, 0, []);
  }

  /** The exception does happen: a full first page that declares 10001 versions, and
      an empty second one, which ends the walk with the first page's versions. */
  lemma DisagreementHappens()
    ensures exists server: Server, page: seq<string> ::
              && |page| == VERSION_LIMIT
              && OneAtATime(server) == Versions(page) && Collected(server) == PagingExceeded
  {
    var page: seq<string> := seq(VERSION_LIMIT, (i: nat) => "1.0.0");
    var server: Server := (offset: nat) =>
      if offset == 0 then Page(page, MAX_VERSION_PAGES * VERSION_LIMIT + 1) else Page([], 0);
    assert [] + page == page && page + [] == page;
    assert !Last(0, server(0)) && Last(1, server(VERSION_LIMIT));
    assert Walk(server, 1, page) == Versions(page);
    assert OneAtATime(server) == Versions(page) && Collected(server) == PagingExceeded;
  }

  // A server that pages one list and declares its length.
  predicate HonestAt(server: Server, list: seq<string>, k: nat) {
    server(Offset(k)) ==
      if Offset(k) >= |list| then Page([], |list|)
      else if Offset(k + 1) >= |list| then Page(list[Offset(k)..], |list|)
      else Page(list[Offset(k)..Offset(k + 1)], |list|)
  }

  ghost predicate Honest(server: Server, list: seq<string>) {
    forall k: nat {:trigger HonestAt(server, list, k)} :: HonestAt(server, list, k)
  }

  lemma {:induction false} HonestWalk(server: Server, list: seq<string>, page: nat)
    requires Honest(server, list) && page <= MAX_VERSION_PAGES
    requires Offset(page) < |list| || (page == 0 && list == [])
    ensures Walk(server, page, list[..Offset(page)]) ==
            if |list| <= MAX_VERSION_PAGES * VERSION_LIMIT then Versions(list) else PagingExceeded
    decreases MAX_VERSION_PAGES - page
  {
    if page < MAX_VERSION_PAGES {
      var answer := server(Offset(page));
      assert HonestAt(server, list, page);
      if Offset(page + 1) >= |list| {
        assert list[..Offset(page)] + answer.versions == list;
      } else {
        assert list[..Offset(page)] + answer.versions == list[..Offset(page + 1)];
        HonestWalk(server, list, page + 1);
      }
    }
  }

  /** From an honest server the pager returns the whole list, or refuses it,
      exactly by its length, and agrees with the walk. */
  lemma HonestList(server: Server, list: seq<string>)
    requires Honest(server, list)
    ensures Collected(server) == OneAtATime(server)
    ensures Collected(server) == if |list| <= MAX_VERSION_PAGES * VERSION_LIMIT then Versions(list) else PagingExceeded
  {
    assert list[..Offset(0)] == [] && HonestAt(server, list, 0);
    HonestWalk(server, list, 0);
  }
}
