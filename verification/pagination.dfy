/**
 * The address download's paging: for each zip code the count of matching
 * records is split into `ceil(count / page_size)` requests of `page_size`
 * records at offsets `0, page_size, 2 * page_size, ...`; a zip code with no
 * records writes nothing.
 */
module Pagination {
  import opened Numbers

  /** One `api.query` call: `offset` and `limit`. */
  datatype PageRequest = PageRequest(offset: nat, limit: nat)

  /** Whether row `i` of the zip code's records falls in the page. */
  predicate InPage(p: PageRequest, i: nat) {
    p.offset <= i < p.offset + p.limit
  }

  /** `for page in range(total_pages)`: the requests, in order. */
  method RequestPages(count: nat, pageSize: nat) returns (pages: seq<PageRequest>)
    requires pageSize > 0
    ensures |pages| == CeilDiv(count, pageSize)
    ensures forall k :: 0 <= k < |pages| ==> pages[k] == PageRequest(pageSize * k, pageSize)
  {
    var totalPages := CeilDiv(count, pageSize);
    pages := [];
    var page := 0;
    while page < totalPages
      invariant page <= totalPages
      invariant |pages| == page
      invariant forall k :: 0 <= k < page ==> pages[k] == PageRequest(pageSize * k, pageSize)
    {
      pages := pages + [PageRequest(pageSize * page, pageSize)];
      page := page + 1;
    }
  }

  /** The requests as a value, for stating properties. */
  function Pages(count: nat, pageSize: nat): (pages: seq<PageRequest>)
    requires pageSize > 0
    ensures |pages| == CeilDiv(count, pageSize)
    ensures forall k :: 0 <= k < |pages| ==> pages[k].offset == pageSize * k && pages[k].limit == pageSize
  {
    seq(CeilDiv(count, pageSize), k requires 0 <= k => PageRequest(pageSize * k, pageSize))
  }

  /** The page ranges do not overlap. */
  lemma {:induction false} PagesDisjoint(count: nat, pageSize: nat, j: nat, k: nat, i: nat)
    requires pageSize > 0
    requires j < k < |Pages(count, pageSize)|
    ensures !(InPage(Pages(count, pageSize)[j], i) && InPage(Pages(count, pageSize)[k], i))
  {
    MulMono(pageSize, j + 1, k);
    assert pageSize * (j + 1) == pageSize * j + pageSize;
  }

  /** Every record index below the count lies in the page `i / page_size`. */
  lemma {:induction false} PagesCover(count: nat, pageSize: nat, i: nat)
    requires pageSize > 0
    requires i < count
    ensures i / pageSize < |Pages(count, pageSize)|
    ensures InPage(Pages(count, pageSize)[i / pageSize], i)
  {
    var q := i / pageSize;
    var c := CeilDiv(count, pageSize);
    CeilDivUnique(count, pageSize, c);
    assert pageSize * q <= i < pageSize * q + pageSize;
    if q >= c {
      MulMono(pageSize, c, q);
      assert false;
    }
  }

  /** No page is wasted: each one starts before the last record. */
  lemma {:induction false} PagesStartBelowCount(count: nat, pageSize: nat, k: nat)
    requires pageSize > 0
    requires k < |Pages(count, pageSize)|
    ensures Pages(count, pageSize)[k].offset < count
  {
    var c := CeilDiv(count, pageSize);
    CeilDivUnique(count, pageSize, c);
    MulMono(pageSize, k, c - 1);
  }

  /** What one zip code produces: nothing written, or the pages fetched and concatenated into its file. */
  datatype ZipOutcome = Skipped | Written(pages: seq<PageRequest>)

  /** The body of the zip-code loop: no pages means `continue`. */
  function DownloadZip(count: nat, pageSize: nat): (r: ZipOutcome)
    requires pageSize > 0
    ensures r.Skipped? <==> count == 0
    ensures r.Written? ==> r.pages == Pages(count, pageSize) && |r.pages| > 0
  {
    CeilDivZero(count, pageSize);
    var pages := Pages(count, pageSize);
    if |pages| == 0 then Skipped else Written(pages)
  }
}
