/**
 * What the paginated listing loop of the client observes. The HTTP GET and the JSON
 * decoding of one page are an oracle, a `PageSource`: for a URL it yields the decoded
 * page, or None when anything in fetching, decoding or accumulating that page threw;
 * a page that decodes without a `values` list is None too, since appending it throws.
 */
module Pagination {
  import opened Bitbucket

  type PageSource<T> = string -> Option<Page<T>>

  /** One GET of the loop: the URL requested and what it yielded. */
  datatype Fetch<T> = Fetch(url: string, reply: Option<Page<T>>)

  /**
   * Following `next` links from `url` stops within `n` requests: some page has no
   * `next`, or some request fails. A source whose links cycle never satisfies this.
   */
  predicate EndsWithin<T(==)>(source: PageSource<T>, url: string, n: nat)
    decreases n
  {
    n > 0 &&
    match source(url)
    case None => true
    case Some(page) => page.next.None? || EndsWithin(source, page.next.value, n - 1)
  }

  /** Request `i` of `walk` succeeded and its `next` link is the URL of request `i + 1`. */
  predicate LinksOn<T(==)>(walk: seq<Fetch<T>>, i: int)
    requires 0 <= i < |walk| - 1
  {
    walk[i].reply.Some? && walk[i].reply.value.next == Some(walk[i + 1].url)
  }

  /**
   * A walk from `url`: it starts there, every request but the last succeeded and
   * pointed at the next one, and the last one failed or had no `next` link.
   */
  predicate IsWalk<T(==)>(source: PageSource<T>, url: string, walk: seq<Fetch<T>>) {
    && |walk| > 0
    && walk[0].url == url
    && (forall i :: 0 <= i < |walk| ==> walk[i].reply == source(walk[i].url))
    && (forall i :: 0 <= i < |walk| - 1 ==> LinksOn(walk, i))
    && (walk[|walk| - 1].reply.None? || walk[|walk| - 1].reply.value.next.None?)
  }

  /** The requests made when listing from `url`, in order. */
  function Trace<T(==)>(source: PageSource<T>, url: string, n: nat): (walk: seq<Fetch<T>>)
    requires EndsWithin(source, url, n)
    ensures IsWalk(source, url, walk)
    ensures forall i :: 0 <= i < |walk| - 1 ==> walk[i].reply.Some?
    ensures |walk| <= n
    decreases n
  {
    var reply := source(url);
    if reply.Some? && reply.value.next.Some? then
      var rest := Trace(source, reply.value.next.value, n - 1);
      var walk := [Fetch(url, reply)] + rest;
      assert forall i :: 1 <= i < |walk| - 1 ==> LinksOn(walk, i) by {
        forall i | 1 <= i < |walk| - 1
          ensures LinksOn(walk, i)
        {
          assert LinksOn(rest, i - 1);
        }
      }
      walk
    else
      [Fetch(url, reply)]
  }

  /** The items of one fetch: a failed request contributes nothing. */
  function PageValues<T(==)>(f: Fetch<T>): seq<T> {
    if f.reply.Some? then f.reply.value.values else []
  }

  /** The items of every page of `walk`, page after page, each page in server order. */
  function ValuesOf<T(==)>(walk: seq<Fetch<T>>): seq<T> {
    if walk == [] then [] else PageValues(walk[0]) + ValuesOf(walk[1..])
  }

  /** The GET requests of `walk`, in order. */
  function Gets<T(==)>(walk: seq<Fetch<T>>): seq<Request> {
    if walk == [] then [] else Gets(walk[..|walk| - 1]) + [Get(walk[|walk| - 1].url)]
  }

  /** One step of a walk: the first request, then the walk from its `next` link, if it has one. */
  lemma TraceStep<T>(source: PageSource<T>, url: string, n: nat)
    requires EndsWithin(source, url, n)
    ensures var reply := source(url);
      if reply.Some? && reply.value.next.Some? then
        EndsWithin(source, reply.value.next.value, n - 1)
        && Trace(source, url, n) == [Fetch(url, reply)] + Trace(source, reply.value.next.value, n - 1)
      else
        Trace(source, url, n) == [Fetch(url, reply)]
  {
  }

  /**
   * The listing loop's bookkeeping: if `done` holds the fetches so far and the walk
   * continues from `url`, one more request extends `done` by that fetch, the items by
   * its page, and leaves the walk continuing from its `next` link (or complete).
   */
  lemma ListingStep<T>(source: PageSource<T>, walk: seq<Fetch<T>>, done: seq<Fetch<T>>, url: string, n: nat)
    requires EndsWithin(source, url, n) && walk == done + Trace(source, url, n)
    ensures var f := Fetch(url, source(url));
      && ValuesOf(done + [f]) == ValuesOf(done) + PageValues(f)
      && Gets(done + [f]) == Gets(done) + [Get(url)]
      && if source(url).Some? && source(url).value.next.Some? then
           EndsWithin(source, source(url).value.next.value, n - 1)
           && walk == (done + [f]) + Trace(source, source(url).value.next.value, n - 1)
         else
           walk == done + [f]
  {
    var f := Fetch(url, source(url));
    TraceStep(source, url, n);
    ValuesOfSnoc(done, f);
    assert (done + [f])[..|done|] == done;
  }

  /** Accumulating one more fetch appends that page's items after those gathered so far. */
  lemma {:induction false} ValuesOfSnoc<T>(walk: seq<Fetch<T>>, f: Fetch<T>)
    ensures ValuesOf(walk + [f]) == ValuesOf(walk) + PageValues(f)
  {
    if walk == [] {
      assert [f][1..] == [];
    } else {
      assert (walk + [f])[1..] == walk[1..] + [f];
      ValuesOfSnoc(walk[1..], f);
    }
  }

  /** A walk is determined by the source and its start: the listing loop has no other choice to make. */
  lemma {:induction false} WalkIsUnique<T>(source: PageSource<T>, url: string, n: nat, walk: seq<Fetch<T>>)
    requires EndsWithin(source, url, n)
    requires IsWalk(source, url, walk)
    ensures walk == Trace(source, url, n)
    decreases n
  {
    var reply := source(url);
    assert walk[0] == Fetch(url, reply);
    if |walk| > 1 {
      assert LinksOn(walk, 0);
      var next := walk[1].url;
      assert IsWalk(source, next, walk[1..]) by {
        forall i | 0 <= i < |walk[1..]| - 1
          ensures LinksOn(walk[1..], i)
        {
          assert LinksOn(walk, i + 1);
          assert walk[1..][i] == walk[i + 1] && walk[1..][i + 1] == walk[i + 2];
        }
      }
      WalkIsUnique(source, next, n - 1, walk[1..]);
      assert walk == [walk[0]] + walk[1..];
    }
  }

  /**
   * A failed request ends the walk, and the items gathered are exactly those of the
   * pages fetched before it; in particular a failure on the first page gives no items.
   */
  lemma FailureEndsWalk<T>(source: PageSource<T>, url: string, n: nat, k: nat)
    requires EndsWithin(source, url, n)
    requires k < |Trace(source, url, n)| && Trace(source, url, n)[k].reply.None?
    ensures k == |Trace(source, url, n)| - 1
    ensures ValuesOf(Trace(source, url, n)) == ValuesOf(Trace(source, url, n)[..k])
  {
    var walk := Trace(source, url, n);
    assert walk == walk[..k] + [walk[k]];
    ValuesOfSnoc(walk[..k], walk[k]);
  }

  /**
   * Partial failure yields a prefix: if the request for `broken` fails, the items
   * gathered are a prefix of those a source that answers at `broken` (and agrees
   * everywhere else) would give.
   */
  lemma {:induction false} FailureYieldsPrefix<T>(source: PageSource<T>, repaired: PageSource<T>, broken: string,
                                                url: string, n: nat, m: nat)
    requires source(broken).None?
    requires forall u :: u != broken ==> repaired(u) == source(u)
    requires EndsWithin(source, url, n) && EndsWithin(repaired, url, m)
    ensures ValuesOf(Trace(source, url, n)) <= ValuesOf(Trace(repaired, url, m))
    decreases n
  {
    var reply := source(url);
    if url == broken {
      assert Trace(source, url, n) == [Fetch(url, reply)];
      assert ValuesOf(Trace(source, url, n)) == [];
    } else if reply.Some? && reply.value.next.Some? {
      var next := reply.value.next.value;
      FailureYieldsPrefix(source, repaired, broken, next, n - 1, m - 1);
      var mine, theirs := Trace(source, next, n - 1), Trace(repaired, next, m - 1);
      assert Trace(source, url, n) == [Fetch(url, reply)] + mine;
      assert Trace(repaired, url, m) == [Fetch(url, reply)] + theirs;
      assert ([Fetch(url, reply)] + mine)[1..] == mine;
      assert ([Fetch(url, reply)] + theirs)[1..] == theirs;
    } else {
      assert Trace(source, url, n) == Trace(repaired, url, m);
    }
  }
}
