/** Model of `PopupController` in js/classes/PrimeTable.js.

    The popup's DOM state is two CSS classes on the popup node
    (`prime-popup--visible` and `prime-popup--active`) plus the one page-wide
    side effect, the inline `overflow` style of the document body. Clicks and
    key presses are explicit events. */
module Popup {
  import opened Wrappers

  /** Body overflow while the popup is open: background scrolling is suppressed. */
  const ScrollLocked: string := "hidden"
  /** Body overflow after closing: the inline style is cleared. */
  const ScrollReleased: string := ""
  /** The key that closes the popup from anywhere in the document. */
  const EscapeKey: string := "Escape"

  datatype Popup = Popup(visible: bool, active: bool, bodyOverflow: string)

  predicate IsOpen(p: Popup) {
    p.visible && p.active && p.bodyOverflow == ScrollLocked
  }

  predicate IsClosed(p: Popup) {
    !p.visible && !p.active && p.bodyOverflow == ScrollReleased
  }

  /** `openPopup`: adds both classes and locks page scrolling; opening an open
      popup changes nothing. */
  function OpenPopup(p: Popup): (r: Popup)
    ensures IsOpen(r)
    ensures IsOpen(p) ==> r == p
  {
    p.(visible := true, active := true, bodyOverflow := ScrollLocked)
  }

  /** `closePopup`: removes both classes and clears the body's overflow; closing
      a closed popup changes nothing. */
  function ClosePopup(p: Popup): (r: Popup)
    ensures IsClosed(r)
    ensures IsClosed(p) ==> r == p
  {
    p.(visible := false, active := false, bodyOverflow := ScrollReleased)
  }

  /** The events the controller listens to once constructed. */
  datatype Event =
    | OpenClick              // click on the `[data-open-js]` trigger
    | OverlayClick           // click on `.prime-popup__overlay`
    | CloseClick             // click on any `[data-popup-close-js]` button
    | KeyDown(key: string)   // `keydown` anywhere in the document

  /** What an event can ask of the popup. */
  datatype Request = Open | Close

  /** The request an event carries; `None` for a key the controller ignores. */
  function Command(e: Event): Option<Request> {
    match e
    case OpenClick => Some(Open)
    case OverlayClick => Some(Close)
    case CloseClick => Some(Close)
    case KeyDown(key) => if key == EscapeKey then Some(Close) else None
  }

  function Dispatch(p: Popup, e: Event): (r: Popup)
    ensures Command(e) == Some(Open) ==> IsOpen(r)
    ensures Command(e) == Some(Close) ==> IsClosed(r)
    ensures Command(e) == None ==> r == p
    ensures e.KeyDown? && e.key != EscapeKey ==> r == p
  {
    match e
    case OpenClick => OpenPopup(p)
    case OverlayClick => ClosePopup(p)
    case CloseClick => ClosePopup(p)
    case KeyDown(key) => if key == EscapeKey then ClosePopup(p) else p
  }

  /** The state after handling `events` in order. */
  function Run(p: Popup, events: seq<Event>): Popup
    decreases |events|
  {
    if events == [] then p else Run(Dispatch(p, events[0]), events[1..])
  }

  /** The last open-or-close request in `events`, read from the end. */
  function LastCommand(events: seq<Event>): Option<Request>
    decreases |events|
  {
    if events == [] then None
    else
      var last := Command(events[|events| - 1]);
      if last.Some? then last else LastCommand(events[..|events| - 1])
  }

  lemma {:induction false} RunSnoc(p: Popup, events: seq<Event>, e: Event)
    ensures Run(p, events + [e]) == Dispatch(Run(p, events), e)
    decreases |events|
  {
    if events == [] {
      assert events + [e] == [e];
    } else {
      assert (events + [e])[1..] == events[1..] + [e];
      RunSnoc(Dispatch(p, events[0]), events[1..], e);
    }
  }

  /** Whatever happened before, the popup is in the state its last open or close
      request asked for; with no such request, it is untouched. */
  lemma {:induction false} RunFollowsLastCommand(p: Popup, events: seq<Event>)
    ensures LastCommand(events) == None ==> Run(p, events) == p
    ensures LastCommand(events) == Some(Open) ==> IsOpen(Run(p, events))
    ensures LastCommand(events) == Some(Close) ==> IsClosed(Run(p, events))
    decreases |events|
  {
    if events != [] {
      var prefix := events[..|events| - 1];
      var e := events[|events| - 1];
      assert events == prefix + [e];
      RunSnoc(p, prefix, e);
      RunFollowsLastCommand(p, prefix);
    }
  }

  /** Opening and then closing leaves the body overflow cleared, whatever inline
      value it held before the popup was opened. */
  lemma OpenThenClose(p: Popup)
    ensures ClosePopup(OpenPopup(p)) == ClosePopup(p)
    ensures ClosePopup(OpenPopup(p)).bodyOverflow == ScrollReleased
  {
  }

}
