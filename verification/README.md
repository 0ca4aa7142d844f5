# Pagination control: page list and controlled/uncontrolled state

This project models the core of the `Pagination` component of the Arco Design
Vue library. The component takes a total item count, a page size and a current
page, and works out which page indicators to show. It also keeps the current
page and page size consistent when the parent controls them, or when they are
left to the component.

The model has four modules:

- `Pages` (`pages.dfy`) defines the `PageItem` variant: `Page(n)`,
  `Ellipsis(step)`, `Previous`, `Next`, and the simple-mode `Jumper(current, pages)`.
  It also defines the page count `ceil(total / pageSize)`, computed as
  `(total + pageSize - 1) / pageSize`, and the consecutive page range.
- `PageList` (`page_list.dfy`) is the page-list builder (the `pageList`
  computed value). Below `6 + 2*bufferSize` pages it lists every page. At or
  above that threshold it lists a window `left..right` around the current
  page. An optional `Page(1), Ellipsis(-(2*bufferSize+1))` comes before the
  window, and an optional `Ellipsis(2*bufferSize+1), Page(pages)` comes after it.
  `WellFormed` is an independent description of a list a reader can follow:
  - page numbers ascend from 1 to the last page;
  - neighbouring page numbers are consecutive;
  - every ellipsis hides a non-empty run of pages and points toward it.
- `Reconciler` (`reconciler.dfy`) is the state machine behind the
  `current`/`pageSize` props and the internal `_current`/`_pageSize` refs.
  Each transition returns the new internal store and the emitted events
  (`update:current`, `change`, `update:pageSize`, `pageSizeChange`) in
  emission order. The page-size `watch` is an explicit `PageSizeWatcher`
  step. It runs at the end of `HandlePageSizeChange` and on every props
  change (`UpdateProps`). It fires only when the effective page size moved.
  `ApplyVModel` models a parent that binds the props it passes with `v-model`.
- `Pagination` (`pagination.dfy`) covers what is rendered: nothing under
  `hideOnSinglePage` with at most one page. Otherwise it renders the simple
  layout (previous, jumper, next) or the full layout (previous, page list,
  optional "more" ellipsis, next), at the effective current page and page size.

The current page is an unconstrained integer. The builder accepts
out-of-range pages without complaint, as the component does. Page counts
and buffer sizes are natural numbers, and the effective page size must be at
least 1 wherever a page count is computed.

Small buffer sizes behave differently. `bufferSize` is an internal prop with a
default of 2. With the default or anything larger, the collapsed list is always
well formed (`WellFormedPageList`). With `bufferSize = 1`, the left edge can
repeat page 1 behind an ellipsis that hides nothing (`BufferOneRepeatsFirstPage`).
With `bufferSize = 0`, the window can reach page numbers below 1 and list more
page buttons than there are pages (`BufferZeroListsPhantomPages`). So the bound
"never more page buttons than pages" holds only from `bufferSize = 1` upward
(`PageButtonsAtMostPages`). The model keeps the code's behaviour for these
values as written.

The component never clamps the current page to the page count. The builder
simply draws the window the formulas give.

## Model

| member | source | states |
|---|---|---|
| `Pages.PageCount` | packages/web-vue/components/pagination/pagination.tsx:196-198 | the page count is the ceiling of total over page size: its pages hold every item, and one page fewer would not |
| `Pages.PageCountIsLeast` | packages/web-vue/components/pagination/pagination.tsx:196-198 | no smaller page count holds all the items |
| `Pages.Range` | packages/web-vue/components/pagination/pagination.tsx:299-307 | the loop from left to right yields right-left+1 page items, the k-th being page left+k, and nothing when left > right |
| `PageList.CollapsedWindow` | packages/web-vue/components/pagination/pagination.tsx:262-277 | a left gap opens exactly when current > 2*bufferSize and then left <= current-2, else left = 1; a right gap opens exactly when current < pages-3 and then right >= current+2, else right = pages; the window is non-empty, and in collapsed mode it stays within the last page and, for bufferSize >= 1, starts at page 1 or later |
| `PageList.BuildPageList` | packages/web-vue/components/pagination/pagination.tsx:248-334 | the page list holds only page numbers and ellipses, and never more than max(9, 2*bufferSize+5) items however many pages there are |
| `PageList.UncollapsedListsEveryPage` | packages/web-vue/components/pagination/pagination.tsx:251-260 | below 6+2*bufferSize pages the list is exactly Page(1)..Page(pages) in order with no ellipsis; zero pages gives the empty list |
| `PageList.CollapsedShape` | packages/web-vue/components/pagination/pagination.tsx:261-331 | at or above the threshold the list starts with Page(1), Ellipsis(-(2b+1)) iff current > 2b and ends with Ellipsis(2b+1), Page(pages) iff current < pages-3; between them lie exactly the consecutive pages left..right, left = min(current-2, pages-2b) or 1, right = max(current+2, 2b+1) or pages, and left <= right |
| `PageList.WellFormedPageList` | packages/web-vue/components/pagination/pagination.tsx:248-334 | for bufferSize >= 2, or below the threshold, and for any current page, the list is well formed: it runs from Page(1) to Page(pages), page numbers lie in 1..pages, adjacent page numbers are consecutive, and each ellipsis hides a non-empty run and jumps backward exactly when that run lies below the current page |
| `PageList.SpansAscending` | packages/web-vue/components/pagination/pagination.tsx:279-330 | in a well-formed list the page numbers strictly increase, so no page is listed twice |
| `PageList.NoPageListedTwice` | packages/web-vue/components/pagination/pagination.tsx:248-334 | for bufferSize >= 2, or below the threshold, the page numbers of the built list strictly increase, so no page is listed twice |
| `PageList.PageButtonsAtMostPages` | packages/web-vue/components/pagination/pagination.tsx:248-334 | with bufferSize >= 1, or below the threshold, the list holds at most as many page buttons as there are pages |
| `PageList.CurrentPageListed` | packages/web-vue/components/pagination/pagination.tsx:262-277 | a current page within 1..pages always appears in the list, for every buffer size |
| `PageList.WindowMonotone` | packages/web-vue/components/pagination/pagination.tsx:262-277 | in collapsed mode, moving the current page forward never moves either window bound back, for every buffer size when the current page starts at 1 or later, and from any current page when bufferSize >= 1 |
| `PageList.BufferOneRepeatsFirstPage` | packages/web-vue/components/pagination/pagination.tsx:267-286 | with bufferSize 1, eight pages and current page 3, page 1 is listed twice around an ellipsis that hides nothing, so the list is not well formed |
| `PageList.BufferZeroListsPhantomPages` | packages/web-vue/components/pagination/pagination.tsx:267-277 | with bufferSize 0, six pages and current page 1, the list contains pages -1 and 0 and seven page buttons for six pages |
| `PageList.DefaultBufferExamples` | packages/web-vue/components/pagination/pagination.tsx:251-331 | 100 items at 10 per page with buffer 2 gives 1..5, Ellipsis(5), 10 at page 1 and 1, Ellipsis(-5), 6..10 at page 10; 9 pages are listed in full and 10 pages collapse |
| `Reconciler.EffectiveCurrent` | packages/web-vue/components/pagination/pagination.tsx:193 | the shown page is the current prop when given, else the internal page |
| `Reconciler.EffectivePageSize` | packages/web-vue/components/pagination/pagination.tsx:194 | the page size in use is the pageSize prop when given, else the internal size |
| `Reconciler.ExternalOverridesInternal` | packages/web-vue/components/pagination/pagination.tsx:191-194 | a supplied current or pageSize prop is the effective value whatever the internal store holds; an absent one leaves the internal value in charge |
| `Reconciler.Init` | packages/web-vue/components/pagination/pagination.tsx:191-192 | the internal store starts at defaultCurrent and defaultPageSize, 1 and 10 when not given |
| `Reconciler.HandleClick` | packages/web-vue/components/pagination/pagination.tsx:200-206 | a click emits something exactly when the page differs from the effective current page, never touches the page size, and lands on the page when current is uncontrolled |
| `Reconciler.ClickContract` | packages/web-vue/components/pagination/pagination.tsx:200-206 | a click on the shown page changes nothing; any other click stores the page and emits update:current(p) then change(p); an uncontrolled click repeated does nothing |
| `Reconciler.PageSizeWatcher` | packages/web-vue/components/pagination/pagination.tsx:379-385 | the watcher emits exactly when the effective page size moved and the effective current page is not 1, never writes the page size, and leaves an uncontrolled component on page 1 after a move |
| `Reconciler.HandlePageSizeChange` | packages/web-vue/components/pagination/pagination.tsx:208-212 | a page-size choice always stores the size and first emits update:pageSize(s), pageSizeChange(s); uncontrolled, the effective size becomes s |
| `Reconciler.PageSizeChangeContract` | packages/web-vue/components/pagination/pagination.tsx:208-212 | after the two page-size events, update:current(1), change(1) follow and the internal page becomes 1 exactly when the effective size moved and the effective page was not 1; otherwise the page is untouched and only two events are emitted |
| `Reconciler.UncontrolledPageSizeChange` | packages/web-vue/components/pagination/pagination.tsx:379-385 | without props a new page size always lands on page 1 with that size, and the same size leaves the page alone |
| `Reconciler.UpdateProps` | packages/web-vue/components/pagination/pagination.tsx:379-385 | a props change resets to page 1, emitting update:current(1), change(1), exactly when it moves the effective page size and the effective page is not 1; otherwise the store is left as it was; the internal page size is never written |
| `Reconciler.ResetExample` | packages/web-vue/components/pagination/pagination.tsx:379-385 | from page 5 at size 10, choosing 20 emits update:pageSize(20), pageSizeChange(20), update:current(1), change(1) and ends on page 1 at size 20 |
| `Reconciler.ClickParity` | packages/web-vue/components/pagination/pagination.tsx:200-206 | under a v-model parent a click emits the same events as in an uncontrolled component, and once they are applied the same page and size are shown |
| `Reconciler.PageSizeParity` | packages/web-vue/components/pagination/pagination.tsx:379-385 | under a v-model parent, the page-size choice followed by the resulting props change emits exactly the events the uncontrolled component emits at once, and ends on the same page and size |
| `Pagination.EffectivePages` | packages/web-vue/components/pagination/pagination.tsx:196-198 | the page count is the ceiling of total over the effective page size |
| `Pagination.Pager` | packages/web-vue/components/pagination/pagination.tsx:336-376 | every pager begins with Previous and ends with Next with neither in between; the simple pager has three items |
| `Pagination.PagerLayout` | packages/web-vue/components/pagination/pagination.tsx:336-376 | the simple pager is Previous, Jumper(current, pages), Next; the full pager is Previous, the page list, Ellipsis(2b+1) exactly when showMore, Next |
| `Pagination.Render` | packages/web-vue/components/pagination/pagination.tsx:409-412 | nothing is rendered exactly when hideOnSinglePage is set and there is at most one page |
| `Pagination.NoItemsShowsOnlySteps` | packages/web-vue/components/pagination/pagination.tsx:251-260 | with no items the full pager is Previous, Next, with the more ellipsis between them when shown |
| `Pagination.ClickedPageIsListed` | packages/web-vue/components/pagination/pagination.tsx:262-307 | after an uncontrolled click on a real page, the rendered full pager lists that page |
| `Pagination.HideOnSinglePageExample` | packages/web-vue/components/pagination/pagination.tsx:410-412 | with hideOnSinglePage and 10 per page, 10 items render nothing and 11 items render Previous, 1, 2, Next |

## Left out

- Rendering is left out: JSX and VNode construction, CSS classes, `size`, `pageItemStyle`, `activePageItemStyle` and `disabled`. They have no effect on which items appear. The `pageItem` slot is taken to be the identity.
- The total-count text (`showTotal`, i18n) is left out. It is external text formatting.
- The page-size selector (`showPageSize`, `pageSizeOptions`, `pageSizeProps`) is left out. It is an external widget. The model accepts any size it reports to `HandlePageSizeChange`.
- The standalone jumper of the full layout (`showJumper`) is left out. It is an external widget that only calls `HandleClick`.
- The step buttons, the ellipsis jump and the jumper work out their target page inside external widgets. The model receives the resulting page in `HandleClick`.
- Vue scheduling is not modelled. A page size that moves away and back within one flush fires no watcher in Vue. The model runs the watcher once per transition.
- The commented-out page-preserving recomputation in the watcher is not modelled. It is disabled code.
- Non-integer totals, negative totals and page sizes below 1 are not modelled. With them `Math.ceil` gives a negative page count, -0, or Infinity (NaN when the total is also 0) for a page size of 0. `Render` and `EffectivePages` require an effective page size of at least 1.
- Non-integer `current`, `pageSize` and `bufferSize` values, and a negative `bufferSize`, are not modelled: the model's page, size and buffer values are integers and the buffer size is a natural number. A fractional current page would make the window loop emit fractional page numbers.
- PageList.WindowMonotone: with bufferSize 0 the window is not monotone from a current page below 1 (current 0 gives left = 1, current 1 gives left = -1), so that case is excluded.
- `packages/web-vue/components/date-picker/pickers/month-picker.tsx` is not part of this model. It only forwards props to a picker component.
- PageList.WellFormedPageList: stated only for bufferSize >= 2 (or below the threshold), because smaller buffer sizes do not give a well-formed list; `BufferOneRepeatsFirstPage` exhibits this.
- PageList.PageButtonsAtMostPages: stated only for bufferSize >= 1 (or below the threshold), because bufferSize 0 exceeds the bound; `BufferZeroListsPhantomPages` exhibits this.
