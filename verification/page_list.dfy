/** The page-list builder: from the page count, the current page and the
    buffer size to the ordered page-number and ellipsis items between the
    Previous and Next buttons (the `pageList` computed value of the
    pagination component). */
module PageList {
  import opened Pages

  /** Below this many pages every page is listed; at or above it the list collapses. */
  function Threshold(bufferSize: nat): nat { 6 + 2 * bufferSize }

  /** How many pages an ellipsis jumps. */
  function JumpSize(bufferSize: nat): int { 2 * bufferSize + 1 }

  function Min(a: int, b: int): int { if a <= b then a else b }
  function Max(a: int, b: int): int { if a >= b then a else b }

  /** The visible window of a collapsed list: pages left..right are listed,
      and an ellipsis stands on each side that has one. */
  datatype Window = Window(left: int, right: int, hasLeft: bool, hasRight: bool)

  /** The window keeps at least two pages on each side of the current page
      and always contains it; a gap opens on the left exactly past
      2*bufferSize and on the right exactly more than three pages before the end. */
  function CollapsedWindow(pages: nat, current: int, bufferSize: nat): (w: Window)
    ensures w.hasLeft <==> current > 2 * bufferSize
    ensures w.hasRight <==> current < pages - 3
    ensures w.hasLeft ==> w.left <= current - 2
    ensures !w.hasLeft ==> w.left == 1
    ensures w.hasRight ==> w.right >= current + 2
    ensures !w.hasRight ==> w.right == pages
    ensures pages >= 1 ==> w.left <= w.right
    ensures pages >= Threshold(bufferSize) ==> w.right <= pages
    ensures pages >= Threshold(bufferSize) && bufferSize >= 1 ==> 1 <= w.left
  {
    var hasLeft := current > 2 * bufferSize;
    var hasRight := current < pages - 3;
    Window(
      if hasLeft then Min(current - 2, pages - 2 * bufferSize) else 1,
      if hasRight then Max(current + 2, 2 * bufferSize + 1) else pages,
      hasLeft, hasRight)
  }

  /** Page 1 and a backward ellipsis, when the window has a left gap. */
  function LeftEdge(w: Window, bufferSize: nat): seq<PageItem>
  {
    if w.hasLeft then [Page(1), Ellipsis(-JumpSize(bufferSize))] else []
  }

  /** A forward ellipsis and the last page, when the window has a right gap. */
  function RightEdge(w: Window, pages: nat, bufferSize: nat): seq<PageItem>
  {
    if w.hasRight then [Ellipsis(JumpSize(bufferSize)), Page(pages)] else []
  }

  /** The page list. It holds only page numbers and ellipses, and however
      many pages there are it never grows beyond max(9, 2*bufferSize + 5) items. */
  function BuildPageList(pages: nat, current: int, bufferSize: nat): (r: seq<PageItem>)
    ensures forall i :: 0 <= i < |r| ==> r[i].Page? || r[i].Ellipsis?
    ensures |r| <= Max(9, 2 * bufferSize + 5)
  {
    if pages < Threshold(bufferSize) then Range(1, pages)
    else
      var w := CollapsedWindow(pages, current, bufferSize);
      LeftEdge(w, bufferSize) + Range(w.left, w.right) + RightEdge(w, pages, bufferSize)
  }

  /** A list of page items as a reader of the control expects it: page numbers
      ascending from 1 to `pages`, two neighbouring page numbers are consecutive
      pages, and every ellipsis sits between two page numbers and stands for the
      non-empty run of pages hidden between them, jumping backward exactly when
      that run lies below the current page. No pages means no items. */
  ghost predicate WellFormed(xs: seq<PageItem>, pages: nat, current: int)
  {
    if pages == 0 then xs == [] else Spans(xs, 1, pages, current)
  }

  /** `xs` is a well-formed stretch of the list from page `first` to page `last`. */
  ghost predicate Spans(xs: seq<PageItem>, first: int, last: int, current: int)
  {
    && |xs| >= 1 && xs[0] == Page(first) && xs[|xs| - 1] == Page(last)
    && (forall i :: 0 <= i < |xs| ==> xs[i].Page? || xs[i].Ellipsis?)
    && (forall i :: 0 <= i < |xs| && xs[i].Page? ==> first <= xs[i].n <= last)
    && (forall i :: 0 <= i < |xs| - 1 && xs[i].Page? && xs[i + 1].Page? ==> xs[i + 1].n == xs[i].n + 1)
    && (forall i :: 0 <= i < |xs| && xs[i].Ellipsis? ==> GapAt(xs, i, current))
  }

  /** The ellipsis at `i` hides at least one page and points toward the hidden run. */
  ghost predicate GapAt(xs: seq<PageItem>, i: int, current: int)
    requires 0 <= i < |xs| && xs[i].Ellipsis?
  {
    && 0 < i < |xs| - 1
    && xs[i - 1].Page? && xs[i + 1].Page?
    && xs[i + 1].n > xs[i - 1].n + 1
    && (xs[i].step < 0 <==> xs[i + 1].n <= current)
  }

  /** Below the threshold every page is listed once, in ascending order,
      with no ellipsis; no pages gives an empty list. */
  lemma UncollapsedListsEveryPage(pages: nat, current: int, bufferSize: nat)
    requires pages < Threshold(bufferSize)
    ensures |BuildPageList(pages, current, bufferSize)| == pages
    ensures forall i :: 0 <= i < pages ==> BuildPageList(pages, current, bufferSize)[i] == Page(i + 1)
    ensures pages == 0 ==> BuildPageList(pages, current, bufferSize) == []
  {
  }

  /** At or above the threshold the list is: page 1 and a backward ellipsis
      exactly when the current page lies beyond 2*bufferSize, then the
      consecutive pages left..right, then a forward ellipsis and the last
      page exactly when the current page lies more than three pages before
      the end. The window bounds are the source's min/max formulas. */
  lemma CollapsedShape(pages: nat, current: int, bufferSize: nat)
    requires pages >= Threshold(bufferSize)
    ensures var r := BuildPageList(pages, current, bufferSize);
      && ((|r| >= 2 && r[0] == Page(1) && r[1] == Ellipsis(-(2 * bufferSize + 1)))
          <==> current > 2 * bufferSize)
      && ((|r| >= 2 && r[|r| - 2] == Ellipsis(2 * bufferSize + 1) && r[|r| - 1] == Page(pages))
          <==> current < pages - 3)
    ensures var r := BuildPageList(pages, current, bufferSize);
      var p := if current > 2 * bufferSize then 2 else 0;
      var s := if current < pages - 3 then 2 else 0;
      var left := if current > 2 * bufferSize then Min(current - 2, pages - 2 * bufferSize) else 1;
      var right := if current < pages - 3 then Max(current + 2, 2 * bufferSize + 1) else pages;
      && left <= right
      && |r| == p + (right - left + 1) + s
      && forall i :: p <= i < |r| - s ==> r[i] == Page(left + i - p)
  {
    var r := BuildPageList(pages, current, bufferSize);
    var w := CollapsedWindow(pages, current, bufferSize);
    var m := Range(w.left, w.right);
    assert r == LeftEdge(w, bufferSize) + m + RightEdge(w, pages, bufferSize);
    assert w.left <= w.right;
    if !w.hasLeft {
      assert r[0] == m[0] == Page(1);
      assert r[1].Page? || r[1] == Ellipsis(JumpSize(bufferSize));
    }
    if !w.hasRight {
      assert r[|r| - 1] == m[|m| - 1];
      assert r[|r| - 2].Page? || r[|r| - 2] == Ellipsis(-JumpSize(bufferSize));
    }
  }

  /** No page number appears twice in a list with a buffer size of 2 or more. */
  lemma NoPageListedTwice(pages: nat, current: int, bufferSize: nat, i: int, j: int)
    requires bufferSize >= 2 || pages < Threshold(bufferSize)
    requires var r := BuildPageList(pages, current, bufferSize);
      0 <= i < j < |r| && r[i].Page? && r[j].Page?
    ensures BuildPageList(pages, current, bufferSize)[i].n < BuildPageList(pages, current, bufferSize)[j].n
  {
    WellFormedPageList(pages, current, bufferSize);
    SpansAscending(BuildPageList(pages, current, bufferSize), 1, pages, current, i, j);
  }

  /** With the default buffer size of 2 or more, and for every current page,
      in range or not, the list is well formed: ascending pages from 1 to the
      last page with each hidden run marked by exactly one ellipsis. */
  lemma WellFormedPageList(pages: nat, current: int, bufferSize: nat)
    requires bufferSize >= 2 || pages < Threshold(bufferSize)
    ensures WellFormed(BuildPageList(pages, current, bufferSize), pages, current)
  {
    if pages >= Threshold(bufferSize) {
      var w := CollapsedWindow(pages, current, bufferSize);
      var j := JumpSize(bufferSize);
      var m := Range(w.left, w.right);
      assert BuildPageList(pages, current, bufferSize) == LeftEdge(w, bufferSize) + m + RightEdge(w, pages, bufferSize);
      assert 1 <= w.left <= w.right <= pages;
      SpansRange(w.left, w.right, current);
      if w.hasLeft && w.hasRight {
        SpansPrepend(m, w.left, w.right, current, -j);
        SpansAppend([Page(1), Ellipsis(-j)] + m, 1, w.right, pages, current, j);
        assert [Page(1), Ellipsis(-j)] + m + [Ellipsis(j), Page(pages)] == BuildPageList(pages, current, bufferSize);
      } else if w.hasLeft {
        SpansPrepend(m, w.left, w.right, current, -j);
        assert [Page(1), Ellipsis(-j)] + m == BuildPageList(pages, current, bufferSize);
      } else {
        SpansAppend(m, w.left, w.right, pages, current, j);
        assert m + [Ellipsis(j), Page(pages)] == BuildPageList(pages, current, bufferSize);
      }
    } else if pages > 0 {
      SpansRange(1, pages, current);
    }
  }

  lemma SpansRange(lo: int, hi: int, current: int)
    requires lo <= hi
    ensures Spans(Range(lo, hi), lo, hi, current)
  {
  }

  /** Page 1 and a backward ellipsis before a stretch starting at page 3 or later. */
  lemma SpansPrepend(xs: seq<PageItem>, first: int, last: int, current: int, step: int)
    requires Spans(xs, first, last, current)
    requires 3 <= first <= current && step < 0
    ensures Spans([Page(1), Ellipsis(step)] + xs, 1, last, current)
  {
    var ys := [Page(1), Ellipsis(step)] + xs;
    forall i | 2 <= i < |ys|
      ensures ys[i] == xs[i - 2]
    {
    }
    assert GapAt(ys, 1, current);
    forall i | 2 <= i < |ys| && ys[i].Ellipsis?
      ensures GapAt(ys, i, current)
    {
      assert GapAt(xs, i - 2, current);
    }
  }

  /** A forward ellipsis and the last page after a stretch ending before the
      current page's successor run. */
  lemma SpansAppend(xs: seq<PageItem>, first: int, last: int, pages: int, current: int, step: int)
    requires Spans(xs, first, last, current)
    requires current < last <= pages - 2 && step > 0
    ensures Spans(xs + [Ellipsis(step), Page(pages)], first, pages, current)
  {
    var ys := xs + [Ellipsis(step), Page(pages)];
    forall i | 0 <= i < |xs|
      ensures ys[i] == xs[i]
    {
    }
    assert GapAt(ys, |xs|, current);
    forall i | 0 <= i < |xs| && ys[i].Ellipsis?
      ensures GapAt(ys, i, current)
    {
      assert GapAt(xs, i, current);
    }
  }

  /** In a well-formed stretch the page numbers strictly increase, so no page
      is listed twice. */
  lemma {:induction false} SpansAscending(xs: seq<PageItem>, first: int, last: int, current: int, i: int, j: int)
    requires Spans(xs, first, last, current)
    requires 0 <= i < j < |xs| && xs[i].Page? && xs[j].Page?
    ensures xs[i].n < xs[j].n
    decreases j - i
  {
    if xs[j - 1].Page? {
      if i < j - 1 {
        SpansAscending(xs, first, last, current, i, j - 1);
      }
    } else {
      assert GapAt(xs, j - 1, current);
      if i < j - 2 {
        SpansAscending(xs, first, last, current, i, j - 2);
      }
    }
  }

  /** With a buffer size of at least 1 the list never holds more page-number
      buttons than there are pages. */
  lemma PageButtonsAtMostPages(pages: nat, current: int, bufferSize: nat)
    requires bufferSize >= 1 || pages < Threshold(bufferSize)
    ensures CountPages(BuildPageList(pages, current, bufferSize)) <= pages
  {
    if pages < Threshold(bufferSize) {
      CountPagesRange(1, pages);
    } else {
      var w := CollapsedWindow(pages, current, bufferSize);
      var l := LeftEdge(w, bufferSize);
      var m := Range(w.left, w.right);
      var e := RightEdge(w, pages, bufferSize);
      CountPagesAppend(l, m);
      CountPagesAppend(l + m, e);
      CountPagesRange(w.left, w.right);
      assert CountPages(l) == if w.hasLeft then 1 else 0;
      assert CountPages(e) == if w.hasRight then 1 else 0;
    }
  }

  /** Whenever the current page is a real page it is listed. */
  lemma CurrentPageListed(pages: nat, current: int, bufferSize: nat)
    requires 1 <= current <= pages
    ensures Page(current) in BuildPageList(pages, current, bufferSize)
  {
    var r := BuildPageList(pages, current, bufferSize);
    if pages < Threshold(bufferSize) {
      assert r[current - 1] == Page(current);
    } else {
      var w := CollapsedWindow(pages, current, bufferSize);
      var m := Range(w.left, w.right);
      assert m[current - w.left] == Page(current);
      assert r == LeftEdge(w, bufferSize) + m + RightEdge(w, pages, bufferSize);
    }
  }

  /** As the current page moves forward the collapsed window never moves back
      (with bufferSize = 0 this needs current pages from 1 up). */
  lemma WindowMonotone(pages: nat, c1: int, c2: int, bufferSize: nat)
    requires pages >= Threshold(bufferSize)
    requires bufferSize >= 1 || 1 <= c1
    requires c1 <= c2
    ensures CollapsedWindow(pages, c1, bufferSize).left <= CollapsedWindow(pages, c2, bufferSize).left
    ensures CollapsedWindow(pages, c1, bufferSize).right <= CollapsedWindow(pages, c2, bufferSize).right
  {
  }

  /** With bufferSize = 1 the left edge repeats page 1 and its ellipsis hides nothing. */
  lemma BufferOneRepeatsFirstPage()
    ensures BuildPageList(8, 3, 1)
      == [Page(1), Ellipsis(-3), Page(1), Page(2), Page(3), Page(4), Page(5), Ellipsis(3), Page(8)]
    ensures !WellFormed(BuildPageList(8, 3, 1), 8, 3)
  {
    var r := BuildPageList(8, 3, 1);
    assert r[2] == Page(1);
    assert !GapAt(r, 1, 3);
  }

  /** With bufferSize = 0 the window reaches below page 1 and lists more
      page-number buttons than there are pages. */
  lemma BufferZeroListsPhantomPages()
    ensures BuildPageList(6, 1, 0)
      == [Page(1), Ellipsis(-1), Page(-1), Page(0), Page(1), Page(2), Page(3), Ellipsis(1), Page(6)]
    ensures CountPages(BuildPageList(6, 1, 0)) == 7
  {
  }

  /** Worked examples with 100 items, 10 per page and the default buffer size. */
  lemma DefaultBufferExamples()
    ensures BuildPageList(PageCount(100, 10), 1, 2)
      == [Page(1), Page(2), Page(3), Page(4), Page(5), Ellipsis(5), Page(10)]
    ensures BuildPageList(PageCount(100, 10), 10, 2)
      == [Page(1), Ellipsis(-5), Page(6), Page(7), Page(8), Page(9), Page(10)]
    ensures BuildPageList(9, 5, 2) == Range(1, 9)
    ensures BuildPageList(10, 5, 2)
      == [Page(1), Ellipsis(-5), Page(3), Page(4), Page(5), Page(6), Page(7), Ellipsis(5), Page(10)]
  {
    assert PageCount(100, 10) == 10;
  }
}
