/** The search side of main.js: the mod records and `fetchMods`
    (main.js:38-58), which walks the search endpoint page by page. */
module Catalog {
  import opened Wrappers

  /** One search hit; only the fields main.js reads. A missing description is `None`. */
  datatype Mod = Mod(slug: string, title: string, description: Option<string>)

  /** `limit`: the number of hits asked for per request. */
  const PageSize: nat := 100

  /** What the search endpoint answers for one version and loader: the full
      ordered list of hits, of which a request at `offset` returns the next
      `PageSize`, and the offsets at which the request or its decoding throws. */
  datatype SearchService = SearchService(hits: seq<Mod>, failing: set<nat>)

  function Min(a: nat, b: nat): nat
  {
    if a <= b then a else b
  }

  /** `json.hits` of the request at `offset`, when it does not throw. */
  function PageAt(service: SearchService, offset: nat): (page: seq<Mod>)
    ensures |page| <= PageSize
  {
    var n := |service.hits|;
    if n <= offset then [] else service.hits[offset..Min(offset + PageSize, n)]
  }

  /** The offsets a complete walk over `n` hits requests: 0, 100, 200, ...,
      up to the first page holding fewer than 100 hits. */
  function Offsets(n: nat): seq<nat>
  {
    seq(n / PageSize + 1, i requires 0 <= i => i * PageSize)
  }

  /** Some request of the walk throws. */
  ghost predicate Fails(service: SearchService)
  {
    exists i :: 0 <= i < |Offsets(|service.hits|)| && Offsets(|service.hits|)[i] in service.failing
  }

  /** What `fetchMods` returns: all hits, or the empty list when a request fails. */
  ghost function Fetched(service: SearchService): seq<Mod>
  {
    if Fails(service) then [] else service.hits
  }

  function Concat(pages: seq<seq<Mod>>): seq<Mod>
    decreases |pages|
  {
    if pages == [] then [] else Concat(pages[..|pages| - 1]) + pages[|pages| - 1]
  }

  /** The pages returned for the given requests, in request order. */
  function Pages(service: SearchService, requests: seq<nat>): seq<seq<Mod>>
  {
    seq(|requests|, i requires 0 <= i < |requests| => PageAt(service, requests[i]))
  }

  lemma ConcatSnoc(pages: seq<seq<Mod>>, page: seq<Mod>)
    ensures Concat(pages + [page]) == Concat(pages) + page
  {
    assert (pages + [page])[..|pages|] == pages;
  }

  /** The offset after `k` full pages is still a request of the walk. */
  lemma OffsetsNext(n: nat, k: nat)
    requires k * PageSize <= n
    ensures k < |Offsets(n)| && Offsets(n)[k] == k * PageSize
    ensures Offsets(n)[..k + 1] == Offsets(n)[..k] + [k * PageSize]
  {
  }

  /** A page starting at `k * PageSize` that comes back short is the walk's last. */
  lemma OffsetsLast(n: nat, k: nat)
    requires k * PageSize <= n < k * PageSize + PageSize
    ensures |Offsets(n)| == k + 1
  {
  }

  /** A throwing request among the walk's offsets makes the walk fail. */
  lemma FailsAt(service: SearchService, requests: seq<nat>)
    requires requests != [] && |requests| <= |Offsets(|service.hits|)|
    requires requests == Offsets(|service.hits|)[..|requests|]
    requires requests[|requests| - 1] in service.failing
    ensures Fails(service)
  {
    assert Offsets(|service.hits|)[|requests| - 1] in service.failing;
  }

  /** A walk that requested every offset without a throw does not fail. */
  lemma CompleteWalk(service: SearchService, requests: seq<nat>)
    requires |requests| == |Offsets(|service.hits|)|
    requires requests == Offsets(|service.hits|)[..|requests|]
    requires forall i :: 0 <= i < |requests| ==> requests[i] !in service.failing
    ensures requests == Offsets(|service.hits|) && !Fails(service)
  {
  }

  /** One more page extends the prefix of hits gathered so far. */
  lemma AppendPage(service: SearchService, offset: nat)
    requires offset <= |service.hits|
    ensures var page := PageAt(service, offset);
      service.hits[..offset] + page == service.hits[..offset + |page|]
  {
  }

  /** `fetchMods`: request pages at offsets 0, 100, 200, ... strictly in
      order, append each page's hits, and stop after the first page with fewer
      than `PageSize` hits; a request that throws ends the walk with no mods.
      `requests` records the offsets requested. */
  method FetchMods(service: SearchService) returns (mods: seq<Mod>, requests: seq<nat>)
    ensures requests != [] && |requests| <= |Offsets(|service.hits|)|
    ensures requests == Offsets(|service.hits|)[..|requests|]
    ensures mods == Fetched(service)
    ensures forall i :: 0 <= i < |requests| - 1 ==>
      requests[i] !in service.failing && |PageAt(service, requests[i])| == PageSize
    ensures !Fails(service) ==>
      && requests == Offsets(|service.hits|)
      && mods == Concat(Pages(service, requests))
      && |PageAt(service, requests[|requests| - 1])| < PageSize
    ensures Fails(service) ==> mods == [] && requests[|requests| - 1] in service.failing
  {
    var n := |service.hits|;
    var limit := PageSize;
    var offset: nat := 0;
    mods := [];
    requests := [];
    while true
      invariant offset == |requests| * PageSize <= n
      invariant requests == Offsets(n)[..|requests|]
      invariant forall i :: 0 <= i < |requests| ==>
        requests[i] !in service.failing && |PageAt(service, requests[i])| == PageSize
      invariant mods == service.hits[..offset]
      invariant mods == Concat(Pages(service, requests))
      decreases n - offset
    {
      OffsetsNext(n, |requests|);
      ghost var before := requests;
      requests := requests + [offset];
      if offset in service.failing {
        FailsAt(service, requests);
        return [], requests;
      }
      var hits := PageAt(service, offset);
      assert Pages(service, requests) == Pages(service, before) + [hits];
      ConcatSnoc(Pages(service, before), hits);
      AppendPage(service, offset);
      mods := mods + hits;
      if |hits| < limit {
        OffsetsLast(n, |before|);
        CompleteWalk(service, requests);
        break;
      }
      offset := offset + limit;
    }
    return mods, requests;
  }

  /** 250 hits take three requests (100, 100 and 50 hits); 200 hits also take
      three, the last one empty. */
  lemma RequestCounts(service: SearchService)
    ensures |service.hits| == 250 ==> Offsets(250) == [0, 100, 200] && |PageAt(service, 200)| == 50
    ensures |service.hits| == 200 ==> Offsets(200) == [0, 100, 200] && PageAt(service, 200) == []
  {
  }
}
