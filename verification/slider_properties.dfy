/** Properties of the `MobileSlider` model over whole event sequences and
    whole touch gestures. */
module SliderProperties {
  import opened Wrappers
  import opened MobileSlider

  lemma {:induction false} RunAppend(s: Slider, a: seq<Event>, b: seq<Event>)
    requires WellFormed(s)
    ensures Run(s, a + b) == Run(Run(s, a), b)
    decreases |a|
  {
    if a == [] {
      assert a + b == b;
    } else {
      assert (a + b)[0] == a[0];
      assert (a + b)[1..] == a[1..] + b;
      RunAppend(Dispatch(s, a[0]), a[1..], b);
    }
  }

  /** Every event sequence keeps the invariant: the index names a slide and,
      while live, exactly the current slide is marked. */
  lemma {:induction false} RunKeepsInv(s: Slider, events: seq<Event>)
    requires Inv(s)
    ensures Inv(Run(s, events))
    decreases |events|
  {
    if events != [] {
      RunKeepsInv(Dispatch(s, events[0]), events[1..]);
    }
  }

  /** Once torn down cleanly, the carousel stays clean: live means exactly the
      current slide is marked, torn down means none is. */
  lemma {:induction false} RunKeepsSettled(s: Slider, events: seq<Event>)
    requires Settled(s)
    ensures Settled(Run(s, events))
    decreases |events|
  {
    if events != [] {
      RunKeepsSettled(Dispatch(s, events[0]), events[1..]);
    }
  }

  /** From construction, through any events, the index stays in
      `[0, count - 1]` and the marks stay consistent. */
  lemma ConstructedRunStaysInRange(hasWrapper: bool, markup: seq<bool>, width: int, events: seq<Event>)
    requires Create(hasWrapper, markup, width).Some?
    ensures var r := Run(Create(hasWrapper, markup, width).value, events);
      0 <= r.current <= |markup| - 1 && Inv(r)
  {
    RunKeepsInv(Create(hasWrapper, markup, width).value, events);
  }

  /** Events that include no touch end never change the current slide. */
  lemma {:induction false} NoEndKeepsCurrent(s: Slider, events: seq<Event>)
    requires WellFormed(s)
    requires forall i :: 0 <= i < |events| ==> !events[i].EndTouch?
    ensures Run(s, events).current == s.current
    decreases |events|
  {
    if events != [] {
      NoEndKeepsCurrent(Dispatch(s, events[0]), events[1..]);
    }
  }

  // ---------------------------------------------------------------------------
  // Viewport changes
  // ---------------------------------------------------------------------------

  predicate SameBand(w1: int, w2: int) {
    (w1 <= MobileMaxWidth) == (w2 <= MobileMaxWidth)
  }

  function Resizes(widths: seq<int>): (r: seq<Event>)
    ensures |r| == |widths|
    decreases |widths|
  {
    if widths == [] then [] else [Resize(widths[0])] + Resizes(widths[1..])
  }

  /** A second check in the same band as the first does nothing more. */
  lemma CheckSliderTwice(s: Slider, w1: int, w2: int)
    requires WellFormed(s)
    requires SameBand(w1, w2)
    ensures CheckSlider(CheckSlider(s, w1), w2) == CheckSlider(s, w1)
  {
  }

  /** Any burst of resize events within one band inits or tears down at most
      once: it ends where the first of them alone would. */
  lemma {:induction false} ResizesInOneBand(s: Slider, widths: seq<int>)
    requires WellFormed(s)
    requires |widths| > 0
    requires forall i :: 0 <= i < |widths| ==> SameBand(widths[0], widths[i])
    ensures Run(s, Resizes(widths)) == CheckSlider(s, widths[0])
    decreases |widths|
  {
    var first := CheckSlider(s, widths[0]);
    if |widths| == 1 {
      assert Resizes(widths) == [Resize(widths[0])];
    } else {
      var rest := widths[1..];
      assert Resizes(widths)[1..] == Resizes(rest);
      assert forall i :: 0 <= i < |rest| ==> SameBand(rest[0], rest[i]) by {
        forall i | 0 <= i < |rest|
          ensures SameBand(rest[0], rest[i])
        {
          assert rest[0] == widths[1] && rest[i] == widths[i + 1];
        }
      }
      ResizesInOneBand(first, rest);
      assert CheckSlider(first, rest[0]) == first by {
        assert SameBand(widths[0], widths[1]);
      }
    }
  }

  // ---------------------------------------------------------------------------
  // Gestures
  // ---------------------------------------------------------------------------

  datatype Point = Point(x: int, y: int)

  /** A move to `p` would lock a gesture that started where `s` recorded. */
  predicate LocksAt(s: Slider, p: Point) {
    Locks(p.x - s.startX, p.y - s.startY)
  }

  /** Some move along `path` locks the gesture. */
  predicate AnyLocks(s: Slider, path: seq<Point>) {
    exists i :: 0 <= i < |path| && LocksAt(s, path[i])
  }

  /** The touch-move handler applied along `path`. */
  function MoveAll(s: Slider, path: seq<Point>): Slider
    decreases |path|
  {
    if path == [] then s else MoveAll(TouchMove(s, path[0].x, path[0].y).after, path[1..])
  }

  /** Whether each move along `path` prevented the page's default scroll. */
  function PreventTrace(s: Slider, path: seq<Point>): (r: seq<bool>)
    ensures |r| == |path|
    decreases |path|
  {
    if path == [] then []
    else
      var m := TouchMove(s, path[0].x, path[0].y);
      [m.prevented] + PreventTrace(m.after, path[1..])
  }

  lemma AnyLocksCons(s: Slider, path: seq<Point>)
    requires path != []
    ensures AnyLocks(s, path) <==> LocksAt(s, path[0]) || AnyLocks(s, path[1..])
  {
  }

  /** Moves only ever set the lock: after a path the gesture is horizontal
      exactly when it already was or some move along the path locked it. */
  lemma {:induction false} MoveAllLocks(s: Slider, path: seq<Point>)
    ensures MoveAll(s, path) == s.(horizontal := s.horizontal || AnyLocks(s, path))
    decreases |path|
  {
    if path != [] {
      var t := TouchMove(s, path[0].x, path[0].y).after;
      MoveAllLocks(t, path[1..]);
      AnyLocksCons(s, path);
      assert AnyLocks(t, path[1..]) == AnyLocks(s, path[1..]) by {
        assert t.startX == s.startX && t.startY == s.startY;
        assert forall p :: LocksAt(t, p) == LocksAt(s, p);
      }
    }
  }

  /** Scrolling is prevented for a move exactly when the gesture was already
      locked or some move up to and including this one locked it. */
  lemma {:induction false} PreventTraceSpec(s: Slider, path: seq<Point>, i: int)
    requires 0 <= i < |path|
    ensures PreventTrace(s, path)[i] <==> s.horizontal || AnyLocks(s, path[..i + 1])
    decreases |path|
  {
    var m := TouchMove(s, path[0].x, path[0].y);
    AnyLocksCons(s, path[..i + 1]);
    assert path[..i + 1][0] == path[0];
    if i > 0 {
      PreventTraceSpec(m.after, path[1..], i - 1);
      assert path[1..][..i] == path[..i + 1][1..];
      assert AnyLocks(m.after, path[1..][..i]) == AnyLocks(s, path[1..][..i]) by {
        assert forall p :: LocksAt(m.after, p) == LocksAt(s, p);
      }
    }
  }

  /** The lock is sticky: once a move prevents scrolling, every later move of
      the same gesture does too. */
  lemma LockIsSticky(s: Slider, path: seq<Point>, i: int, j: int)
    requires 0 <= i <= j < |path|
    requires PreventTrace(s, path)[i]
    ensures PreventTrace(s, path)[j]
  {
    PreventTraceSpec(s, path, i);
    PreventTraceSpec(s, path, j);
    if !s.horizontal {
      var k :| 0 <= k < |path[..i + 1]| && LocksAt(s, path[..i + 1][k]);
      assert path[..j + 1][k] == path[..i + 1][k];
    }
  }

  /** The move events of a path. */
  function Drags(path: seq<Point>): (r: seq<Event>)
    ensures |r| == |path|
    decreases |path|
  {
    if path == [] then [] else [MoveTouch(path[0].x, path[0].y)] + Drags(path[1..])
  }

  /** One complete gesture: touch down, move along a path, lift. */
  function Swipe(x0: int, y0: int, path: seq<Point>, endX: int): seq<Event> {
    [StartTouch(x0, y0)] + Drags(path) + [EndTouch(endX)]
  }

  lemma {:induction false} RunDrags(s: Slider, path: seq<Point>)
    requires WellFormed(s) && s.initialized
    ensures Run(s, Drags(path)) == MoveAll(s, path)
    decreases |path|
  {
    if path != [] {
      var d := Drags(path);
      assert d[0] == MoveTouch(path[0].x, path[0].y);
      assert d[1..] == Drags(path[1..]);
      RunDrags(TouchMove(s, path[0].x, path[0].y).after, path[1..]);
    }
  }

  lemma RunOne(s: Slider, e: Event)
    requires WellFormed(s)
    ensures Run(s, [e]) == Dispatch(s, e)
  {
  }

  /** On a live carousel, a whole gesture moves at most one slide: back when it
      locked horizontal and ended more than `SwipeDistance` to the right of its
      start with a previous slide present, forward in the mirror case, and
      nowhere otherwise. */
  lemma SwipeOutcome(s: Slider, x0: int, y0: int, path: seq<Point>, endX: int)
    requires Inv(s) && s.initialized
    ensures var g := TouchStart(s, x0, y0);
      var locked := AnyLocks(g, path);
      var r := Run(s, Swipe(x0, y0, path, endX));
      && Inv(r) && r.initialized && r.count == s.count
      && r.current == (if locked && endX - x0 > SwipeDistance && s.current > 0 then s.current - 1
                       else if locked && x0 - endX > SwipeDistance && s.current < s.count - 1 then s.current + 1
                       else s.current)
      && r.entry == (if r.current == s.current - 1 then Some(Right)
                     else if r.current == s.current + 1 then Some(Left)
                     else s.entry)
      && r.spots == (if r.current == s.current then s.spots
                     else if r.current == s.count - 1 then NoDisplay
                     else Block)
  {
    var g := TouchStart(s, x0, y0);
    var events := Swipe(x0, y0, path, endX);
    RunAppend(s, [StartTouch(x0, y0)] + Drags(path), [EndTouch(endX)]);
    RunAppend(s, [StartTouch(x0, y0)], Drags(path));
    RunOne(s, StartTouch(x0, y0));
    RunDrags(g, path);
    MoveAllLocks(g, path);
    var m := MoveAll(g, path);
    RunOne(m, EndTouch(endX));
  }

  /** `k` copies of `events` back to back. */
  function Repeat(events: seq<Event>, k: nat): seq<Event>
    decreases k
  {
    if k == 0 then [] else events + Repeat(events, k - 1)
  }

  /** A leftward swipe well past both thresholds. */
  const SwipeToNext: seq<Event> := Swipe(100, 0, [Point(0, 0)], 0)
  /** A rightward swipe well past both thresholds. */
  const SwipeToPrevious: seq<Event> := Swipe(0, 0, [Point(100, 0)], 100)

  function Min(a: int, b: int): int { if a <= b then a else b }
  function Max(a: int, b: int): int { if a >= b then a else b }

  /** `k` leftward swipes advance `k` slides but stop at the last one; the
      progress spots end hidden exactly when the last slide was reached. */
  lemma {:induction false} SwipesToNext(s: Slider, k: nat)
    requires Inv(s) && s.initialized
    ensures var r := Run(s, Repeat(SwipeToNext, k));
      && Inv(r) && r.initialized && r.count == s.count
      && r.current == Min(s.current + k, s.count - 1)
      && (s.current == s.count - 1 ==> r.spots == s.spots)
      && (k > 0 && s.current < s.count - 1 ==> (r.spots == NoDisplay <==> s.current + k >= s.count - 1))
    decreases k
  {
    if k > 0 {
      RunAppend(s, SwipeToNext, Repeat(SwipeToNext, k - 1));
      SwipeOutcome(s, 100, 0, [Point(0, 0)], 0);
      assert LocksAt(TouchStart(s, 100, 0), [Point(0, 0)][0]);
      var s1 := Run(s, SwipeToNext);
      SwipesToNext(s1, k - 1);
    }
  }

  /** `k` rightward swipes go back `k` slides but stop at the first one; any
      effective step leaves the progress spots shown. */
  lemma {:induction false} SwipesToPrevious(s: Slider, k: nat)
    requires Inv(s) && s.initialized
    ensures var r := Run(s, Repeat(SwipeToPrevious, k));
      && Inv(r) && r.initialized && r.count == s.count
      && r.current == Max(s.current - k, 0)
      && (s.current == 0 ==> r.spots == s.spots)
      && (k > 0 && s.current > 0 ==> r.spots == Block)
    decreases k
  {
    if k > 0 {
      RunAppend(s, SwipeToPrevious, Repeat(SwipeToPrevious, k - 1));
      SwipeOutcome(s, 0, 0, [Point(100, 0)], 100);
      assert LocksAt(TouchStart(s, 0, 0), [Point(100, 0)][0]);
      var s1 := Run(s, SwipeToPrevious);
      SwipesToPrevious(s1, k - 1);
    }
  }

}
