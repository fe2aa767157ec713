# Pricing-table widgets, modelled in Dafny

This project models the three controllers of `js/classes/PrimeTable.js` as
immutable records with one pure step function per event:

- **MobileSlider** (`slider.dfy`, properties in `slider_properties.dfy`): a
  touch-swipe carousel over `count` slides. It is live only when the viewport
  is at most 479 pixels wide. Its state is the current index, the
  `mobileSliderInitialized` flag, the set of slides carrying the active class,
  the gesture fields `startX`, `startY` and `isHorizontalSwipe`, the inline
  display of the progress spots, and the last requested entry animation.
  `load` and `resize` both become `Resize(width)`. Touch events reach the
  handlers only while the touch listeners are attached, that is, while the
  slider is live.
- **PopupController** (`popup.dfy`): the popup's `visible` and `active`
  classes and the body's inline `overflow` style. Events are clicks on the
  trigger, the overlay and close buttons, and key presses.
- **TransactionYearSelect** (`year_select.dfy`): the select root's open class
  and the text of the current-value node. A click is one event naming what it
  landed on. The element's own listener runs first. The document-wide
  outside-click listener then sees the same click as it bubbles. The four
  targets are disjoint: the model assumes the options are not nested inside
  the current-value control, so a click fires at most one element listener.
  With such nesting, an option click would select and close, then bubble to
  the control and toggle the select open again.

`wrappers.dfy` holds the shared `Option` type.

The viewport width, the touch coordinates, key names and the option's
`data-value` attribute are parameters of the step functions. Coordinates are
integers.

Facts about the code that the model makes explicit:

- `closePopup` always writes the empty string to the body's overflow, so an
  inline overflow set before the popup was opened is not restored
  (`Popup.OpenThenClose`).
- At construction on a wide viewport, `checkSlider` calls `destroySlider`.
  That call is a no-op, because the slider was never initialized. So the
  active classes from the markup stay as written (`MobileSlider.Create`).
  "No slide marked while torn down" holds only from the first real teardown
  onwards (`SliderProperties.RunKeepsSettled`).
- `showSlide` with an index naming no slide throws a `TypeError` after the
  old slide has already lost its active class. `MobileSlider.ShowSlide`
  models this partial update as `Threw`. The touch handler never calls it
  that way.

## Model

| member | source | states |
|---|---|---|
| `Popup.OpenPopup` | js/classes/PrimeTable.js:28-31 | the popup ends open (both classes, body overflow "hidden"); opening an open popup changes nothing |
| `Popup.ClosePopup` | js/classes/PrimeTable.js:33-36 | the popup ends closed (no classes, body overflow ""); closing a closed popup changes nothing |
| `Popup.Dispatch` | js/classes/PrimeTable.js:18-26 | a trigger click opens; an overlay click, a close-button click or Escape closes; any other key leaves the state untouched |
| `Popup.RunFollowsLastCommand` | js/classes/PrimeTable.js:18-36 | after any event sequence the popup is in the state its last open or close request asked for, and untouched if there was none |
| `Popup.OpenThenClose` | js/classes/PrimeTable.js:28-36 | open then close equals close alone, and leaves the body overflow empty whatever it held before |
| `YearSelect.Toggle` | js/classes/PrimeTable.js:207-209 | flips the open state and keeps the displayed value |
| `YearSelect.ToggleTwice` | js/classes/PrimeTable.js:207-209 | toggling twice restores the original state |
| `YearSelect.Open` | js/classes/PrimeTable.js:211-213 | the select ends open with its value kept; opening an open select changes nothing |
| `YearSelect.Close` | js/classes/PrimeTable.js:215-217 | the select ends closed with its value kept; closing a closed select changes nothing |
| `YearSelect.SelectYear` | js/classes/PrimeTable.js:219-222 | the display shows exactly the given value and the select ends closed |
| `YearSelect.Click` | js/classes/PrimeTable.js:194-205 | a click on the current control toggles; one on an option shows its value (empty if the attribute is missing) and closes; one outside closes and keeps the value; only an option click changes the value |
| `YearSelect.DisplayedIsLastChoice` | js/classes/PrimeTable.js:194-222 | after any clicks the display shows the last option chosen, or the initial value if none was |
| `MobileSlider.InitSlider` | js/classes/PrimeTable.js:72-81 | the slider is live and exactly the current slide is marked; nothing else changes |
| `MobileSlider.DestroySlider` | js/classes/PrimeTable.js:83-93 | a no-op on a slider that is not live; otherwise no slide is marked and the index is kept |
| `MobileSlider.ShowSlide` | js/classes/PrimeTable.js:95-133 | the current index is a no-op; an existing index moves the mark from the old slide to the new one, records the direction, and hides the spots exactly when the new slide is the last; a missing index throws after unmarking the old slide |
| `MobileSlider.TouchStart` | js/classes/PrimeTable.js:135-140 | records the start point and clears the horizontal lock; nothing else changes |
| `MobileSlider.TouchMove` | js/classes/PrimeTable.js:142-154 | the lock ends set exactly when it was set already or the move has strictly more sideways than vertical travel and more than 10 px of it; scrolling is prevented exactly when the lock is set; nothing else changes |
| `MobileSlider.TouchEnd` | js/classes/PrimeTable.js:156-167 | without the lock nothing changes; more than 50 px rightward with a previous slide goes back one with direction right; more than 50 px leftward with a next slide goes forward one with direction left; 50 px or less, or no slide that way, changes nothing |
| `MobileSlider.CheckSlider` | js/classes/PrimeTable.js:169-175 | the slider ends live exactly when the width is at most 479; staying in the same state changes nothing; a teardown unmarks every slide |
| `MobileSlider.Create` | js/classes/PrimeTable.js:43-65 | inert without a wrapper or slides; otherwise index 0, start point (0, 0), no lock, with the invariant holding, live exactly at width at most 479 with only slide 0 marked, and keeping the markup's marks when wide |
| `MobileSlider.Dispatch` | js/classes/PrimeTable.js:67-93 | touch events do nothing while the slider is not live; only a resize changes liveness; only a locked touch end changes the index, by exactly one; the invariant is kept |
| `MobileSlider.Run` | js/classes/PrimeTable.js:67-99 | after any events the current index and every marked index still name existing slides |
| `SliderProperties.RunKeepsInv` | js/classes/PrimeTable.js:72-107 | every event sequence keeps the index in range and, while live, exactly the current slide marked |
| `SliderProperties.RunKeepsSettled` | js/classes/PrimeTable.js:83-93 | once torn down cleanly, a slider that is not live marks no slide, through any later events |
| `SliderProperties.ConstructedRunStaysInRange` | js/classes/PrimeTable.js:49-51 | from construction, any event sequence keeps 0 <= currentSlide <= n-1 |
| `SliderProperties.NoEndKeepsCurrent` | js/classes/PrimeTable.js:135-154 | resizes, touch starts and touch moves never change the current slide |
| `SliderProperties.CheckSliderTwice` | js/classes/PrimeTable.js:169-175 | a second check in the same width band as the first changes nothing |
| `SliderProperties.ResizesInOneBand` | js/classes/PrimeTable.js:67-70 | any burst of resize events within one band ends where the first alone would: at most one init or teardown |
| `SliderProperties.MoveAllLocks` | js/classes/PrimeTable.js:142-149 | after a path of moves the gesture is horizontal exactly when it already was or some move on the path locked it; nothing else changes |
| `SliderProperties.PreventTraceSpec` | js/classes/PrimeTable.js:147-153 | a move prevents scrolling exactly when the gesture was already locked or some move up to and including it locked it |
| `SliderProperties.LockIsSticky` | js/classes/PrimeTable.js:147-153 | once a move of a gesture prevents scrolling, every later move of that gesture does too |
| `SliderProperties.SwipeOutcome` | js/classes/PrimeTable.js:135-167 | a whole gesture on a live slider moves at most one slide, and sets the index, the direction and the spots as a function of lock, displacement and position |
| `SliderProperties.SwipesToNext` | js/classes/PrimeTable.js:163-164 | k leftward swipes advance to min(current + k, n-1), and leave the spots hidden exactly when the last slide was reached |
| `SliderProperties.SwipesToPrevious` | js/classes/PrimeTable.js:161-162 | k rightward swipes go back to max(current - k, 0), and leave the spots shown |

## Left out

- Element lookup and event-listener registration: attaching and detaching the touch listeners is the `initialized` flag, and the `passive` options are not modelled.
- Construction of `PopupController` and `TransactionYearSelect`: an inert controller (a missing trigger, popup or select root) handles no events, so it needs no model. A controller whose root exists but whose inner element (overlay, current control) is missing throws part-way through `init` in the source; that partial wiring is not modelled.
- The entry-animation class and its one-shot removal on `animationend` depend on browser timing. The model records only the direction of the last requested entry.
- Touch coordinates are integers. The source's `clientX`/`clientY` are floating point.
- `showSlide`'s direction argument is `Left` or `Right`. The source maps every string other than `'left'` to the right-hand animation.
- The document body's style is one `overflow` string. The outside-click check (`contains`) is the `Outside` click target.
- Options nested inside the select's current-value control, where one click would reach both listeners. The markup's targets are taken as disjoint.
- Constructing a select twice on the same root binds its listeners twice. This is not modelled.
- The page-level bootstrap at js/classes/PrimeTable.js:228-233, which creates the three controllers.
