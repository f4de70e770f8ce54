/** Concrete ticks of the engine on small containers. */
module Scenarios {
  import opened Seqs
  import opened StickyWrapper
  import opened Container
  import opened LegalDelta
  import opened Movement

  /** Wrapper 1 wraps view 10, which still hangs in the wrapper; nothing is
      pinned and the container's top is at screen y 500. */
  function OneUnpinned(): (s: State)
    ensures Valid(s)
  {
    State(
      registry := [1],
      wrappers := map[1 := Wrapper(Some(10), 600, 600)],
      views := map[10 := View(Host(1), 300, 80, false, 0, 80)],
      children := [],
      target := None,
      maxY := 0,
      ready := false,
      screenY := 500,
      measuredWidth := 0,
      measuredHeight := 0)
  }

  /** Every wrapper reads the same screen y. */
  function Level(y: int): WrapperId -> int {
    w => y
  }

  /** The view's top scrolls from 600 up to 480, past the pin edge at 500:
      the tick moves it into the overlay and makes its wrapper the target. */
  lemma PinAtEdge()
    ensures var r := PerformSticky(OneUnpinned(), 500, Level(480));
      && r.children == [10]
      && r.views[10].parent == Overlay
      && r.target == Some(1)
      && r.wrappers[1].location == 480
      && !r.ready
  {
    var located := OneUnpinned().(screenY := 500);
    var read := located.(wrappers := map[1 := Wrapper(Some(10), 480, 600)]);
    PinAtEdgeScan();
    assert MoveViews(read, Level(480)) == Step(read, []);
    var r := Apply(read, Pin(1, 10));
    assert r.children == [10];
    assert ApplyAll(read, [Pin(1, 10)]) == r;
  }

  /** In the tick of PinAtEdge the scan pins wrapper 1 and records its
      reading. */
  lemma PinAtEdgeScan()
    ensures var located := OneUnpinned().(screenY := 500);
      && PinsFor(located, located.registry, Level(480)) == [Pin(1, 10)]
      && ReadLocations(located, located.registry, Level(480))
         == located.(wrappers := map[1 := Wrapper(Some(10), 480, 600)])
  {
    var located := OneUnpinned().(screenY := 500);
    assert GetBoundSticky(located, true) == 500;
    assert Pinnable(located, 1, Level(480));
    var read := ReadLocations(located, located.registry, Level(480));
    assert read.wrappers[1] == Wrapper(Some(10), 480, 600);
  }

  /** Two pinned views of heights 100 and 80, laid out at tops 0 and 100 in
      a container whose top is at screen y 50, with movement enabled and
      wrapper 2's view as the target: its travel range is [0, 100], the
      height of the view above it. */
  function TwoPinned(targetLocation: int): (s: State)
    ensures Valid(s)
  {
    var pinned := State(
      registry := [1, 2],
      wrappers := map[1 := Wrapper(Some(10), 0, 0), 2 := Wrapper(Some(20), targetLocation, targetLocation)],
      views := map[10 := View(Overlay, 300, 100, false, 0, 100), 20 := View(Overlay, 300, 80, false, 100, 180)],
      children := [10, 20],
      target := Some(2),
      maxY := 100,
      ready := true,
      screenY := 50,
      measuredWidth := 300,
      measuredHeight := 180);
    assert pinned.wrappers.Keys == {1, 2} && pinned.views.Keys == {10, 20};
    assert forall w :: w in pinned.wrappers ==> HomeOrPinned(pinned, w);
    pinned
  }

  /** The target's reading moves up by 150, to above the last child's top
      edge: the stack moves up by only 100, which brings the target's top to
      0, the lower end of its travel range. */
  lemma ClampedMove()
    ensures var r := MoveViews(TwoPinned(250), Level(100));
      && r.pending == []
      && r.state.views[20].top == 0
      && r.state.views[10].top == -100
  {
    var s := TwoPinned(250);
    assert GetLegalDelta(100, 0, 100, -150) == -100;
    assert GetBoundSticky(s, false) == 150;
  }

  /** The target view's top is already at maxY, the upper end of its travel
      range, and its reading moves down by 130, to below the last child's top
      edge: nothing moves and its return into wrapper 2 is queued. */
  lemma ReturnQueued()
    ensures var r := MoveViews(TwoPinned(70), Level(200));
      && r.pending == [Unpin(2, 20)]
      && r.state.views == TwoPinned(70).views
  {
    var s := TwoPinned(70);
    assert GetLegalDelta(100, 0, 100, 130) == 0;
    assert GetBoundSticky(s, false) == 150;
  }
}
