/** The controlled/uncontrolled state of the pagination component: the
    internally owned current page and page size, the optional values the
    parent passes in, the events the component emits, and the page-size
    watcher that sends the control back to page 1. Every transition is a
    pure function from the state before to the state after plus the events
    emitted, in emission order. */
module Reconciler {

  datatype Option<T> = None | Some(value: T)

  /** The `current` and `pageSize` props; None when the parent leaves one out. */
  datatype Props = Props(current: Option<int>, pageSize: Option<int>)

  /** The internal refs: the current page and page size the component owns. */
  datatype Store = Store(current: int, pageSize: int)

  /** The events the component emits. */
  datatype Event =
    | UpdateCurrent(page: int)    // update:current
    | Change(page: int)           // change
    | UpdatePageSize(size: int)   // update:pageSize
    | PageSizeChange(size: int)   // pageSizeChange

  /** The store after a transition and the events it emitted. */
  datatype Step = Step(store: Store, events: seq<Event>)

  const DefaultCurrent: int := 1
  const DefaultPageSize: int := 10

  /** The props of a parent that controls neither value. */
  const Uncontrolled: Props := Props(None, None)

  /** The initial store, from the `defaultCurrent` and `defaultPageSize` props. */
  function Init(defaultCurrent: Option<int>, defaultPageSize: Option<int>): (s: Store)
    ensures s.current == (if defaultCurrent.Some? then defaultCurrent.value else 1)
    ensures s.pageSize == (if defaultPageSize.Some? then defaultPageSize.value else 10)
  {
    Store(Resolve(defaultCurrent, DefaultCurrent), Resolve(defaultPageSize, DefaultPageSize))
  }

  /** The nullish-coalescing rule: a supplied value wins, else the fallback. */
  function Resolve(given: Option<int>, fallback: int): int
  {
    match given
    case Some(v) => v
    case None => fallback
  }

  /** The page shown: the `current` prop when given, else the internal page. */
  function EffectiveCurrent(props: Props, store: Store): (c: int)
    ensures props.current.Some? ==> c == props.current.value
    ensures props.current.None? ==> c == store.current
  {
    Resolve(props.current, store.current)
  }

  /** The page size in use: the `pageSize` prop when given, else the internal size. */
  function EffectivePageSize(props: Props, store: Store): (size: int)
    ensures props.pageSize.Some? ==> size == props.pageSize.value
    ensures props.pageSize.None? ==> size == store.pageSize
  {
    Resolve(props.pageSize, store.pageSize)
  }

  /** A click on page `page` (from a page button, a step button, an ellipsis or the jumper). */
  function HandleClick(props: Props, store: Store, page: int): (s: Step)
    ensures s.store.pageSize == store.pageSize
    ensures s.events == [] <==> page == EffectiveCurrent(props, store)
    ensures props.current.None? ==> EffectiveCurrent(props, s.store) == page
  {
    if page != EffectiveCurrent(props, store) then
      Step(store.(current := page), [UpdateCurrent(page), Change(page)])
    else
      Step(store, [])
  }

  /** The page-size watcher, run after something may have changed the
      effective page size, given the effective page size before. */
  function PageSizeWatcher(props: Props, store: Store, previousSize: int): (s: Step)
    ensures s.store.pageSize == store.pageSize
    ensures s.events != [] <==>
      EffectivePageSize(props, store) != previousSize && EffectiveCurrent(props, store) != 1
    ensures EffectivePageSize(props, store) != previousSize && props.current.None? ==>
      EffectiveCurrent(props, s.store) == 1
  {
    if EffectivePageSize(props, store) != previousSize && EffectiveCurrent(props, store) != 1 then
      Step(store.(current := 1), [UpdateCurrent(1), Change(1)])
    else
      Step(store, [])
  }

  /** A new page size chosen in the page-size selector, followed by the watcher. */
  function HandlePageSizeChange(props: Props, store: Store, size: int): (s: Step)
    ensures s.store.pageSize == size
    ensures props.pageSize.None? ==> EffectivePageSize(props, s.store) == size
    ensures |s.events| >= 2 && s.events[0] == UpdatePageSize(size) && s.events[1] == PageSizeChange(size)
  {
    var previousSize := EffectivePageSize(props, store);
    var stored := store.(pageSize := size);
    var watched := PageSizeWatcher(props, stored, previousSize);
    Step(watched.store, [UpdatePageSize(size), PageSizeChange(size)] + watched.events)
  }

  /** The parent replaces the props; only the watcher reacts. It fires
      only when the change moves the effective page size, resets to page 1
      only when the effective page is not already 1, and never writes the
      internal page size. */
  function UpdateProps(before: Props, after: Props, store: Store): (s: Step)
    ensures s.store.pageSize == store.pageSize
    ensures s.events != [] <==>
      EffectivePageSize(after, store) != EffectivePageSize(before, store)
      && EffectiveCurrent(after, store) != 1
    ensures s.events != [] ==> s.events == [UpdateCurrent(1), Change(1)] && s.store.current == 1
    ensures s.events == [] ==> s.store == store
  {
    PageSizeWatcher(after, store, EffectivePageSize(before, store))
  }

  /** The props of a parent that binds every prop it passes with `v-model`,
      after it has handled `events`: each update event overwrites the prop
      it names, if the parent passes that prop at all. */
  function ApplyVModel(props: Props, events: seq<Event>): Props
    decreases |events|
  {
    if events == [] then props else ApplyVModel(ApplyEvent(props, events[0]), events[1..])
  }

  function ApplyEvent(props: Props, event: Event): Props
  {
    match event
    case UpdateCurrent(p) => if props.current.Some? then props.(current := Some(p)) else props
    case UpdatePageSize(s) => if props.pageSize.Some? then props.(pageSize := Some(s)) else props
    case _ => props
  }

  /** A value the parent supplies shadows the internal one completely; an
      absent one leaves the internal value in charge. */
  lemma ExternalOverridesInternal(props: Props, store: Store, other: Store)
    ensures props.current.Some? ==>
      EffectiveCurrent(props, store) == props.current.value == EffectiveCurrent(props, other)
    ensures props.current.None? ==> EffectiveCurrent(props, store) == store.current
    ensures props.pageSize.Some? ==>
      EffectivePageSize(props, store) == props.pageSize.value == EffectivePageSize(props, other)
    ensures props.pageSize.None? ==> EffectivePageSize(props, store) == store.pageSize
  {
  }

  /** A click on the page already shown does nothing; any other click stores
      the page and emits update:current then change with it, and never
      touches the page size. Without a `current` prop the click lands, and
      repeating it does nothing. */
  lemma ClickContract(props: Props, store: Store, page: int)
    ensures var s := HandleClick(props, store, page);
      && s.store.pageSize == store.pageSize
      && (page == EffectiveCurrent(props, store) ==> s == Step(store, []))
      && (page != EffectiveCurrent(props, store) ==>
            s.store.current == page && s.events == [UpdateCurrent(page), Change(page)])
      && (props.current.None? ==>
            EffectiveCurrent(props, s.store) == page && HandleClick(props, s.store, page).events == [])
  {
  }

  /** A page-size choice stores the size and emits update:pageSize then
      pageSizeChange; then, exactly when the effective page size moved and the
      effective current page is not 1, the internal page becomes 1 and
      update:current(1), change(1) follow. Otherwise the current page is left alone. */
  lemma PageSizeChangeContract(props: Props, store: Store, size: int)
    ensures var s := HandlePageSizeChange(props, store, size);
      var reset := EffectivePageSize(props, s.store) != EffectivePageSize(props, store)
                   && EffectiveCurrent(props, store) != 1;
      && s.store.pageSize == size
      && |s.events| >= 2
      && s.events[..2] == [UpdatePageSize(size), PageSizeChange(size)]
      && (reset ==> s.store.current == 1 && s.events[2..] == [UpdateCurrent(1), Change(1)])
      && (!reset ==> s.store.current == store.current && |s.events| == 2)
  {
  }

  /** Without props, choosing a new page size always lands on page 1 with
      that size, and choosing the same size leaves the page alone. */
  lemma UncontrolledPageSizeChange(store: Store, size: int)
    ensures var s := HandlePageSizeChange(Uncontrolled, store, size);
      && EffectivePageSize(Uncontrolled, s.store) == size
      && (size != store.pageSize ==> EffectiveCurrent(Uncontrolled, s.store) == 1)
      && (size == store.pageSize ==> s == Step(store.(pageSize := size), [UpdatePageSize(size), PageSizeChange(size)]))
  {
  }

  /** Starting from current page 5 and page size 10, choosing 20 resets to page 1. */
  lemma ResetExample()
    ensures HandlePageSizeChange(Uncontrolled, Store(5, 10), 20)
      == Step(Store(1, 20), [UpdatePageSize(20), PageSizeChange(20), UpdateCurrent(1), Change(1)])
  {
  }

  /** The uncontrolled store that starts where `props` and `store` currently
      show the control. */
  function Mirror(props: Props, store: Store): Store
  {
    Store(EffectiveCurrent(props, store), EffectivePageSize(props, store))
  }

  /** Controlling the page through `v-model` behaves like leaving it
      uncontrolled: a click emits the same events, and once the parent has
      applied them the control shows the same page and page size. */
  lemma ClickParity(props: Props, store: Store, page: int)
    ensures var c := HandleClick(props, store, page);
      var u := HandleClick(Uncontrolled, Mirror(props, store), page);
      var shown := ApplyVModel(props, c.events);
      && c.events == u.events
      && EffectiveCurrent(shown, c.store) == u.store.current
      && EffectivePageSize(shown, c.store) == u.store.pageSize
  {
    var c := HandleClick(props, store, page);
    if c.events != [] {
      assert ApplyVModel(props, c.events) == ApplyVModel(ApplyVModel(props, [UpdateCurrent(page)]), [Change(page)]);
    }
  }

  /** The same for a page-size choice. A controlled page size does not move
      until the parent applies update:pageSize; the watcher then fires on the
      prop change instead, so the component emits, across both steps, exactly
      the events an uncontrolled one emits at once, and ends on the same page
      and page size. */
  lemma PageSizeParity(props: Props, store: Store, size: int)
    ensures var first := HandlePageSizeChange(props, store, size);
      var passed := ApplyVModel(props, first.events);
      var second := UpdateProps(props, passed, first.store);
      var shown := ApplyVModel(passed, second.events);
      var u := HandlePageSizeChange(Uncontrolled, Mirror(props, store), size);
      && first.events + second.events == u.events
      && EffectiveCurrent(shown, second.store) == u.store.current
      && EffectivePageSize(shown, second.store) == u.store.pageSize
  {
    var first := HandlePageSizeChange(props, store, size);
    var sized := ApplyEvent(props, UpdatePageSize(size));
    ApplyVModelAppend(props, [UpdatePageSize(size), PageSizeChange(size)], first.events[2..]);
    assert first.events == [UpdatePageSize(size), PageSizeChange(size)] + first.events[2..];
    ApplyVModelPair(props, UpdatePageSize(size), PageSizeChange(size));
    var passed := ApplyVModel(props, first.events);
    if first.events[2..] != [] {
      ApplyVModelPair(sized, UpdateCurrent(1), Change(1));
      assert passed == ApplyEvent(sized, UpdateCurrent(1));
    } else {
      assert passed == sized;
    }
    var second := UpdateProps(props, passed, first.store);
    if second.events != [] {
      ApplyVModelPair(passed, UpdateCurrent(1), Change(1));
    }
  }

  lemma ApplyVModelPair(props: Props, a: Event, b: Event)
    ensures ApplyVModel(props, [a, b]) == ApplyEvent(ApplyEvent(props, a), b)
  {
    assert [a, b][1..] == [b];
    assert [b][1..] == [];
    assert ApplyVModel(ApplyEvent(props, a), [b]) == ApplyVModel(ApplyEvent(ApplyEvent(props, a), b), []);
  }

  lemma {:induction false} ApplyVModelAppend(props: Props, xs: seq<Event>, ys: seq<Event>)
    ensures ApplyVModel(props, xs + ys) == ApplyVModel(ApplyVModel(props, xs), ys)
    decreases |xs|
  {
    if xs == [] {
      assert xs + ys == ys;
    } else {
      assert (xs + ys)[1..] == xs[1..] + ys;
      ApplyVModelAppend(ApplyEvent(props, xs[0]), xs[1..], ys);
    }
  }
}
