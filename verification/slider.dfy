/** Model of `MobileSlider` in js/classes/PrimeTable.js.

    A carousel over `count` slides that is live only on narrow viewports. Each
    slide element is its index; the `prime-table__levels-mobile--active` class
    is the set `active` of marked indices; the progress-spot markers share one
    inline `display` value. Touch coordinates are integers. */
module MobileSlider {
  import opened Wrappers

  /** Widest viewport, in CSS pixels, at which the carousel is live. */
  const MobileMaxWidth: int := 479
  /** Horizontal travel a gesture must exceed before it locks horizontal. */
  const LockDistance: int := 10
  /** Horizontal travel a locked swipe must exceed to change slides. */
  const SwipeDistance: int := 50

  /** Which entry animation a newly shown slide gets: `Left` for
      `prime-table__levels-mobile--anim-in-left`, `Right` for the other. */
  datatype Direction = Left | Right

  /** Inline `display` of the progress spots: untouched markup, `block`, `none`. */
  datatype SpotDisplay = Unstyled | Block | NoDisplay

  datatype Slider = Slider(
    count: nat,                  // number of slides found at construction
    current: int,                // `currentSlide`
    initialized: bool,           // `mobileSliderInitialized`
    active: set<int>,            // slides carrying the active class
    startX: int,                 // touch start point
    startY: int,
    horizontal: bool,            // `isHorizontalSwipe`
    spots: SpotDisplay,
    entry: Option<Direction>)    // entry animation last requested by `showSlide`

  function Abs(x: int): nat {
    if x < 0 then -x else x
  }

  predicate InRange(s: Slider, i: int) {
    0 <= i < s.count
  }

  /** Indices name existing slides. */
  predicate WellFormed(s: Slider) {
    && InRange(s, s.current)
    && (forall i :: i in s.active ==> InRange(s, i))
  }

  /** While the carousel is live, exactly the current slide is marked. */
  predicate Inv(s: Slider) {
    WellFormed(s) && (s.initialized ==> s.active == {s.current})
  }

  /** Additionally, a torn-down carousel marks no slide. */
  predicate Settled(s: Slider) {
    Inv(s) && (!s.initialized ==> s.active == {})
  }

  /** `initSlider`: clears every mark, marks the current slide and attaches the
      touch listeners. */
  function InitSlider(s: Slider): (r: Slider)
    requires WellFormed(s)
    ensures r.initialized
    ensures r.active == {s.current}
    ensures r.(initialized := s.initialized, active := s.active) == s
    ensures Settled(r)
  {
    s.(active := {s.current}, initialized := true)
  }

  /** `destroySlider`: a no-op unless live; otherwise clears every mark and
      detaches the touch listeners, keeping the current index. */
  function DestroySlider(s: Slider): (r: Slider)
    ensures !r.initialized
    ensures !s.initialized ==> r == s
    ensures s.initialized ==> r.active == {}
    ensures r.(initialized := s.initialized, active := s.active) == s
    ensures Inv(s) ==> Inv(r)
  {
    if !s.initialized then s else s.(active := {}, initialized := false)
  }

  /** How a call of `showSlide` ended: normally, or by a `TypeError` thrown on
      the missing slide element after the old slide was already unmarked. */
  datatype Shown = Returned(after: Slider) | Threw(after: Slider)

  /** `showSlide(index, direction)`. */
  function ShowSlide(s: Slider, index: int, direction: Direction): (r: Shown)
    requires WellFormed(s)
    ensures index == s.current ==> r == Returned(s)
    ensures index != s.current && InRange(s, index) ==>
      && r.Returned?
      && r.after.current == index
      && r.after.active == s.active - {s.current} + {index}
      && r.after.entry == Some(direction)
      && r.after.spots != Unstyled
      && (r.after.spots == NoDisplay <==> index == s.count - 1)
      && r.after.(current := s.current, active := s.active, entry := s.entry, spots := s.spots) == s
    ensures !InRange(s, index) ==> r == Threw(s.(active := s.active - {s.current}))
    ensures r.Returned? ==> WellFormed(r.after)
    ensures r.Returned? && s.active == {s.current} ==> r.after.active == {r.after.current}
  {
    if index == s.current then Returned(s)
    else
      var unmarked := s.(active := s.active - {s.current});
      if !InRange(s, index) then Threw(unmarked)
      else
        var moved := unmarked.(active := unmarked.active + {index}, entry := Some(direction), current := index);
        var spots := if moved.current == s.count - 1 then NoDisplay else Block;
        Returned(moved.(spots := spots))
  }

  /** `touchStartHandler`: records the start point and unlocks the gesture. */
  function TouchStart(s: Slider, x: int, y: int): (r: Slider)
    ensures r.startX == x && r.startY == y
    ensures !r.horizontal
    ensures r.(startX := s.startX, startY := s.startY, horizontal := s.horizontal) == s
  {
    s.(startX := x, startY := y, horizontal := false)
  }

  /** A displacement that locks a gesture horizontal: more sideways than
      vertical travel, and more than `LockDistance`, both strictly. */
  predicate Locks(dx: int, dy: int) {
    Abs(dx) > Abs(dy) && Abs(dx) > LockDistance
  }

  /** The state after a move, and whether the page's default scroll was
      prevented for it. */
  datatype Moved = Moved(after: Slider, prevented: bool)

  /** `touchMoveHandler`: the lock is set once and never cleared by a move;
      scrolling is prevented exactly while it is set. */
  function TouchMove(s: Slider, x: int, y: int): (r: Moved)
    ensures r.after.horizontal <==> s.horizontal || Locks(x - s.startX, y - s.startY)
    ensures r.prevented <==> r.after.horizontal
    ensures r.after.(horizontal := s.horizontal) == s
  {
    var diffX := Abs(x - s.startX);
    var diffY := Abs(y - s.startY);
    var after := if !s.horizontal && diffX > diffY && diffX > LockDistance then s.(horizontal := true) else s;
    Moved(after, after.horizontal)
  }

  /** `touchEndHandler`: only a locked gesture navigates, by one slide, and only
      past the dead zone and towards an existing slide. */
  function TouchEnd(s: Slider, endX: int): (r: Slider)
    requires WellFormed(s)
    ensures !s.horizontal ==> r == s
    ensures s.horizontal && endX - s.startX > SwipeDistance && s.current > 0 ==>
      r.current == s.current - 1 && r.entry == Some(Right)
    ensures s.horizontal && s.startX - endX > SwipeDistance && s.current < s.count - 1 ==>
      r.current == s.current + 1 && r.entry == Some(Left)
    ensures Abs(endX - s.startX) <= SwipeDistance ==> r == s
    ensures endX - s.startX > SwipeDistance && s.current == 0 ==> r == s
    ensures s.startX - endX > SwipeDistance && s.current == s.count - 1 ==> r == s
    ensures r.current == s.current ==> r == s
    ensures r.current == s.current - 1 || r.current == s.current || r.current == s.current + 1
    ensures r.current != s.current ==> (r.spots == NoDisplay <==> r.current == s.count - 1)
    ensures r.(current := s.current, active := s.active, entry := s.entry, spots := s.spots) == s
    ensures WellFormed(r)
    ensures Inv(s) ==> Inv(r)
  {
    if !s.horizontal then s
    else if endX - s.startX > SwipeDistance && s.current > 0 then
      ShowSlide(s, s.current - 1, Right).after
    else if s.startX - endX > SwipeDistance && s.current < s.count - 1 then
      ShowSlide(s, s.current + 1, Left).after
    else s
  }

  /** `checkSlider` for a viewport `width`: live at or below the breakpoint,
      torn down above it; staying in the same state changes nothing. */
  function CheckSlider(s: Slider, width: int): (r: Slider)
    requires WellFormed(s)
    ensures r.initialized <==> width <= MobileMaxWidth
    ensures r.initialized == s.initialized ==> r == s
    ensures r.initialized && !s.initialized ==> r.active == {r.current}
    ensures !r.initialized && s.initialized ==> r.active == {}
    ensures r.(initialized := s.initialized, active := s.active) == s
    ensures WellFormed(r)
    ensures Inv(s) ==> Inv(r)
    ensures Settled(s) ==> Settled(r)
  {
    if width <= MobileMaxWidth then
      if !s.initialized then InitSlider(s) else s
    else
      DestroySlider(s)
  }

  /** The constructor, for a page with or without the slider wrapper, whose
      slides carry the active class as `markup` says, at viewport `width`.
      Without a wrapper or without slides the controller stays inert. */
  function Create(hasWrapper: bool, markup: seq<bool>, width: int): (r: Option<Slider>)
    ensures r.Some? <==> hasWrapper && |markup| > 0
    ensures r.Some? ==>
      && Inv(r.value)
      && r.value.count == |markup|
      && r.value.current == 0
      && r.value.startX == 0 && r.value.startY == 0
      && !r.value.horizontal
      && r.value.spots == Unstyled
      && r.value.entry == None
      && (r.value.initialized <==> width <= MobileMaxWidth)
    ensures r.Some? && width <= MobileMaxWidth ==> r.value.active == {0}
    ensures r.Some? && width > MobileMaxWidth ==>
      forall i :: 0 <= i < |markup| ==> (i in r.value.active <==> markup[i])
  {
    if !hasWrapper || |markup| == 0 then None
    else
      var marked := set i | 0 <= i < |markup| && markup[i];
      var s := Slider(|markup|, 0, false, marked, 0, 0, false, Unstyled, None);
      Some(CheckSlider(s, width))
  }

  /** What reaches the controller: `load` and `resize` both report the
      viewport width; the touch events reach it only while its listeners are
      attached, that is, while it is live. */
  datatype Event =
    | Resize(width: int)
    | StartTouch(x: int, y: int)
    | MoveTouch(x: int, y: int)
    | EndTouch(x: int)

  function Dispatch(s: Slider, e: Event): (r: Slider)
    requires WellFormed(s)
    ensures WellFormed(r) && r.count == s.count
    ensures Inv(s) ==> Inv(r)
    ensures Settled(s) ==> Settled(r)
    ensures !e.Resize? && !s.initialized ==> r == s
    ensures r.initialized != s.initialized ==> e.Resize?
    ensures r.current != s.current ==>
      && e.EndTouch? && s.initialized && s.horizontal
      && (r.current == s.current - 1 || r.current == s.current + 1)
  {
    match e
    case Resize(w) => CheckSlider(s, w)
    case StartTouch(x, y) => if s.initialized then TouchStart(s, x, y) else s
    case MoveTouch(x, y) => if s.initialized then TouchMove(s, x, y).after else s
    case EndTouch(x) => if s.initialized then TouchEnd(s, x) else s
  }

  /** The state after handling `events` in order. */
  function Run(s: Slider, events: seq<Event>): (r: Slider)
    requires WellFormed(s)
    ensures WellFormed(r)
    ensures r.count == s.count
    decreases |events|
  {
    if events == [] then s else Run(Dispatch(s, events[0]), events[1..])
  }

}
