/** The pager the component renders: the hideOnSinglePage guard, the
    simple layout (previous, jumper, next) and the full layout (previous,
    page list, optional "more" ellipsis, next), computed from the effective
    current page and page size. */
module Pagination {
  import opened Pages
  import opened PageList
  import opened Reconciler

  /** The props that shape the pager. */
  datatype Config = Config(
    total: nat,
    bufferSize: nat,
    simple: bool,
    showMore: bool,
    hideOnSinglePage: bool)

  /** The number of pages at the effective page size. */
  function EffectivePages(cfg: Config, props: Props, store: Store): (pages: nat)
    requires EffectivePageSize(props, store) >= 1
    ensures pages * EffectivePageSize(props, store) >= cfg.total
    ensures pages == 0 || (pages - 1) * EffectivePageSize(props, store) < cfg.total
  {
    PageCount(cfg.total, EffectivePageSize(props, store))
  }

  /** The pager's items for a given page count and current page. */
  function Pager(cfg: Config, pages: nat, current: int): (r: seq<PageItem>)
    ensures |r| >= 2 && r[0] == Previous && r[|r| - 1] == Next
    ensures cfg.simple ==> |r| == 3
    ensures forall i :: 0 < i < |r| - 1 ==> r[i] != Previous && r[i] != Next
  {
    if cfg.simple then
      [Previous, Jumper(current, pages), Next]
    else
      [Previous] + BuildPageList(pages, current, cfg.bufferSize)
      + (if cfg.showMore then [Ellipsis(JumpSize(cfg.bufferSize))] else [])
      + [Next]
  }

  /** What the component renders: nothing when it hides on a single page,
      otherwise the pager at the effective current page and page size. */
  function Render(cfg: Config, props: Props, store: Store): (r: Option<seq<PageItem>>)
    requires EffectivePageSize(props, store) >= 1
    ensures r.None? <==> cfg.hideOnSinglePage && EffectivePages(cfg, props, store) <= 1
  {
    var pages := EffectivePages(cfg, props, store);
    if cfg.hideOnSinglePage && pages <= 1 then None
    else Some(Pager(cfg, pages, EffectiveCurrent(props, store)))
  }

  /** The simple layout is previous, a jumper showing the current page out
      of the page count, and next; the full layout is previous, the page
      list, the "more" ellipsis jumping 2*bufferSize + 1 pages forward
      exactly when showMore is set, and next. */
  lemma PagerLayout(cfg: Config, pages: nat, current: int)
    ensures var r := Pager(cfg, pages, current);
      cfg.simple ==> r == [Previous, Jumper(current, pages), Next]
    ensures var r := Pager(cfg, pages, current);
      var list := BuildPageList(pages, current, cfg.bufferSize);
      !cfg.simple ==>
        && |r| == |list| + (if cfg.showMore then 3 else 2)
        && r[1..1 + |list|] == list
        && (cfg.showMore <==> r[|r| - 2] == Ellipsis(2 * cfg.bufferSize + 1))
  {
    var r := Pager(cfg, pages, current);
    var list := BuildPageList(pages, current, cfg.bufferSize);
    if !cfg.simple && !cfg.showMore && |list| > 0 {
      assert r[|r| - 2] == list[|list| - 1];
    }
  }

  /** No items means a bare Previous, Next pair, plus the "more" ellipsis when shown. */
  lemma NoItemsShowsOnlySteps(cfg: Config, props: Props, store: Store)
    requires EffectivePageSize(props, store) >= 1
    requires cfg.total == 0 && !cfg.simple && !cfg.hideOnSinglePage
    ensures Render(cfg, props, store)
      == Some(if cfg.showMore then [Previous, Ellipsis(JumpSize(cfg.bufferSize)), Next] else [Previous, Next])
  {
    assert EffectivePages(cfg, props, store) == 0;
    var more: seq<PageItem> := if cfg.showMore then [Ellipsis(JumpSize(cfg.bufferSize))] else [];
    assert BuildPageList(0, EffectiveCurrent(props, store), cfg.bufferSize) == [];
    assert Pager(cfg, 0, EffectiveCurrent(props, store)) == [Previous] + [] + more + [Next];
    assert [Previous] + [] + more + [Next]
      == if cfg.showMore then [Previous, Ellipsis(JumpSize(cfg.bufferSize)), Next] else [Previous, Next];
    assert Render(cfg, props, store) == Some(Pager(cfg, 0, EffectiveCurrent(props, store)));
  }

  /** After a click on a real page of an uncontrolled full pager, the
      rendered pager lists that page. */
  lemma ClickedPageIsListed(cfg: Config, props: Props, store: Store, page: int)
    requires props.current.None? && EffectivePageSize(props, store) >= 1
    requires !cfg.simple && 1 <= page <= EffectivePages(cfg, props, store)
    requires !cfg.hideOnSinglePage || EffectivePages(cfg, props, store) >= 2
    ensures var after := HandleClick(props, store, page).store;
      Render(cfg, props, after).Some? && Page(page) in Render(cfg, props, after).value
  {
    var after := HandleClick(props, store, page).store;
    var pages := EffectivePages(cfg, props, after);
    var list := BuildPageList(pages, page, cfg.bufferSize);
    CurrentPageListed(pages, page, cfg.bufferSize);
    PagerLayout(cfg, pages, page);
    var r := Pager(cfg, pages, page);
    var k :| 0 <= k < |list| && list[k] == Page(page);
    assert r[1 + k] == Page(page);
    assert Render(cfg, props, after) == Some(r);
  }

  /** Examples: 10 items per page hides a control with 10 items but not one with 11. */
  lemma HideOnSinglePageExample()
    ensures Render(Config(10, 2, false, false, true), Uncontrolled, Store(1, 10)) == None
    ensures Render(Config(11, 2, false, false, true), Uncontrolled, Store(1, 10))
      == Some([Previous, Page(1), Page(2), Next])
  {
    assert PageCount(10, 10) == 1;
    assert PageCount(11, 10) == 2;
    assert BuildPageList(2, 1, 2) == [Page(1), Page(2)];
    assert Pager(Config(11, 2, false, false, true), 2, 1) == [Previous] + [Page(1), Page(2)] + [] + [Next];
    assert [Previous] + [Page(1), Page(2)] + [] + [Next] == [Previous, Page(1), Page(2), Next];
    assert EffectivePages(Config(11, 2, false, false, true), Uncontrolled, Store(1, 10)) == 2;
  }
}
