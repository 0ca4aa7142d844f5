/** Page items and page arithmetic shared by the page-list builder and the
    rendered layout of the pagination control. */
module Pages {

  /** One renderable unit of the pagination control. */
  datatype PageItem =
    | Page(n: int)                      // a page-number button
    | Ellipsis(step: int)               // a collapsed run of pages; a negative step jumps backward
    | Previous                          // the "previous page" step button
    | Next                              // the "next page" step button
    | Jumper(current: int, pages: int)  // the simple-mode "current / pages" jumper

  /** The number of pages needed to show `total` items, `pageSize` per page:
      the least page count whose pages hold every item, i.e. ceil(total / pageSize). */
  function PageCount(total: nat, pageSize: int): (pages: nat)
    requires pageSize >= 1
    ensures pages * pageSize >= total
    ensures pages == 0 || (pages - 1) * pageSize < total
  {
    var q := (total + pageSize - 1) / pageSize;
    assert q * pageSize + (total + pageSize - 1) % pageSize == total + pageSize - 1;
    q
  }

  /** No smaller page count holds all the items. */
  lemma PageCountIsLeast(total: nat, pageSize: int, k: nat)
    requires pageSize >= 1
    requires k * pageSize >= total
    ensures PageCount(total, pageSize) <= k
  {
    var pages := PageCount(total, pageSize);
    if pages > k {
      assert (pages - 1) * pageSize >= k * pageSize by {
        assert pages - 1 >= k;
        MulMonotone(k, pages - 1, pageSize);
      }
    }
  }

  lemma MulMonotone(a: int, b: int, c: nat)
    requires a <= b
    ensures a * c <= b * c
  {
    assert b * c - a * c == (b - a) * c;
  }

  /** Page(lo), Page(lo + 1), ..., Page(hi); empty when lo > hi. */
  function Range(lo: int, hi: int): (r: seq<PageItem>)
    ensures |r| == if lo <= hi then hi - lo + 1 else 0
    ensures forall i :: 0 <= i < |r| ==> r[i] == Page(lo + i)
    decreases hi - lo
  {
    if lo > hi then [] else [Page(lo)] + Range(lo + 1, hi)
  }

  /** The number of page-number buttons in a list of items. */
  function CountPages(xs: seq<PageItem>): (k: nat)
    ensures k <= |xs|
  {
    if xs == [] then 0 else (if xs[0].Page? then 1 else 0) + CountPages(xs[1..])
  }

  lemma {:induction false} CountPagesAppend(xs: seq<PageItem>, ys: seq<PageItem>)
    ensures CountPages(xs + ys) == CountPages(xs) + CountPages(ys)
    decreases |xs|
  {
    if xs == [] {
      assert xs + ys == ys;
    } else {
      assert (xs + ys)[1..] == xs[1..] + ys;
      CountPagesAppend(xs[1..], ys);
    }
  }

  /** A range holds only page-number buttons. */
  lemma {:induction false} CountPagesRange(lo: int, hi: int)
    ensures CountPages(Range(lo, hi)) == if lo <= hi then hi - lo + 1 else 0
    decreases hi - lo
  {
    if lo <= hi {
      var r := Range(lo, hi);
      assert r[1..] == Range(lo + 1, hi);
      CountPagesRange(lo + 1, hi);
    }
  }
}
