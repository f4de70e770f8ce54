/** The measure and layout passes of the overlay: the pinned children are
    stacked top to bottom with no gaps, and the travel bound for the target
    is taken from the child above it. */
module Layout {
  import opened Seqs
  import opened StickyWrapper
  import opened Container

  /** Every id of cs names a known view. */
  predicate AllKnown(views: map<ViewId, View>, cs: seq<ViewId>) {
    forall i :: 0 <= i < |cs| ==> cs[i] in views
  }

  /** The height a view takes up in the stack: none when GONE. */
  function StackedHeight(v: View): nat {
    if v.gone then 0 else v.height
  }

  /** Total stacked height of cs. */
  function SumHeights(views: map<ViewId, View>, cs: seq<ViewId>): (h: nat)
    requires AllKnown(views, cs)
    ensures forall i :: 0 <= i < |cs| ==> StackedHeight(views[cs[i]]) <= h
  {
    if |cs| == 0 then 0
    else
      var prefix := cs[..|cs| - 1];
      assert forall i :: 0 <= i < |prefix| ==> prefix[i] == cs[i];
      SumHeights(views, prefix) + StackedHeight(views[Last(cs)])
  }

  /** Widest visible view of cs, or 0 when none is visible. */
  function MaxWidth(views: map<ViewId, View>, cs: seq<ViewId>): (w: nat)
    requires AllKnown(views, cs)
    ensures forall i :: 0 <= i < |cs| && !views[cs[i]].gone ==> views[cs[i]].width <= w
    ensures w == 0 || exists i :: 0 <= i < |cs| && !views[cs[i]].gone && views[cs[i]].width == w
  {
    if |cs| == 0 then 0
    else
      var prefix := cs[..|cs| - 1];
      assert forall i :: 0 <= i < |prefix| ==> prefix[i] == cs[i];
      var widest := MaxWidth(views, prefix);
      var last := views[Last(cs)];
      if last.gone then widest
      else if last.width > widest then last.width
      else widest
  }

  /** Height of the child just above the last one, 0 when there is none. */
  function PreLastHeight(s: State): nat
    requires WellFormed(s)
  {
    if |s.children| >= 2 then s.views[s.children[|s.children| - 2]].height else 0
  }

  /** Measures the overlay: its height is the stacked height of its children
      and its width the widest visible child. When a target is set, the
      target's travel bound is taken from the child above it and movement is
      enabled; otherwise both are left as they were. */
  method OnMeasure(s: State) returns (r: State)
    requires WellFormed(s)
    ensures r.measuredHeight == SumHeights(s.views, s.children)
    ensures r.measuredWidth == MaxWidth(s.views, s.children)
    ensures s.target.Some? ==> r.ready && r.maxY == PreLastHeight(s)
    ensures s.target.None? ==> r.ready == s.ready && r.maxY == s.maxY
    ensures r.(measuredWidth := s.measuredWidth, measuredHeight := s.measuredHeight,
               maxY := s.maxY, ready := s.ready) == s
  {
    var width := 0;
    var height := 0;
    var i := 0;
    while i < |s.children|
      invariant 0 <= i <= |s.children|
      invariant height == SumHeights(s.views, s.children[..i])
      invariant width == MaxWidth(s.views, s.children[..i])
    {
      var child := s.views[s.children[i]];
      assert s.children[..i + 1][..i] == s.children[..i];
      if !child.gone {
        width := if child.width > width then child.width else width;
        height := height + child.height;
      }
      i := i + 1;
    }
    assert s.children[..i] == s.children;
    r := s.(measuredWidth := width, measuredHeight := height);
    if s.target.Some? {
      r := r.(maxY := PreLastHeight(s), ready := true);
    }
  }

  /** Where the stack starts: the first child's current top when it is
      visible, else 0. */
  function StackBase(s: State): int
    requires WellFormed(s)
  {
    if |s.children| > 0 && !s.views[s.children[0]].gone then s.views[s.children[0]].top else 0
  }

  /** Child k sits where the layout pass puts it in views: a visible child
      starts below everything visible above it, a GONE child is untouched. */
  predicate LaidOut(s: State, views: map<ViewId, View>, k: int)
    requires WellFormed(s) && 0 <= k < |s.children|
  {
    var v := s.children[k];
    var old_ := s.views[v];
    v in views &&
    if old_.gone then views[v] == old_
    else
      var top := StackBase(s) + SumHeights(s.views, s.children[..k]);
      views[v] == old_.(top := top, bottom := top + old_.height)
  }

  /** Only GONE children lie strictly between positions i and j. */
  predicate GoneBetween(s: State, i: int, j: int)
    requires WellFormed(s) && 0 <= i < j <= |s.children|
  {
    forall k :: i < k < j ==> s.views[s.children[k]].gone
  }

  /** GONE views add no height. */
  lemma {:induction false} SumSkipsGone(s: State, i: int, j: int)
    requires WellFormed(s) && 0 <= i < j <= |s.children| && GoneBetween(s, i, j)
    ensures SumHeights(s.views, s.children[..j]) == SumHeights(s.views, s.children[..i + 1])
    decreases j
  {
    if j > i + 1 {
      assert s.children[..j][..j - 1] == s.children[..j - 1];
      SumSkipsGone(s, i, j - 1);
    }
  }

  /** Placing visible child i at top keeps the children above it laid out
      and lays out child i. */
  lemma LayOutOne(s: State, views: map<ViewId, View>, after: map<ViewId, View>, i: int, top: int)
    requires WellFormed(s) && 0 <= i < |s.children| && views.Keys == s.views.Keys
    requires views[s.children[i]] == s.views[s.children[i]] && !s.views[s.children[i]].gone
    requires forall k :: 0 <= k < i ==> LaidOut(s, views, k)
    requires top == StackBase(s) + SumHeights(s.views, s.children[..i])
    requires var v := s.children[i];
      after == views[v := views[v].(top := top, bottom := top + views[v].height)]
    ensures forall k :: 0 <= k <= i ==> LaidOut(s, after, k)
    ensures after.Keys == views.Keys
    ensures forall k :: i < k < |s.children| ==> after[s.children[k]] == views[s.children[k]]
    ensures forall u :: u in views && u !in s.children ==> after[u] == views[u]
  {
    var v := s.children[i];
    forall k | i < k < |s.children|
      ensures after[s.children[k]] == views[s.children[k]]
    {
      assert s.children[k] != v;
    }
    forall k | 0 <= k <= i
      ensures LaidOut(s, after, k)
    {
      if k < i {
        assert s.children[k] != v;
        assert LaidOut(s, views, k);
      }
    }
  }

  /** The layout loop: every child is placed and nothing else moves. */
  method PlaceChildren(s: State) returns (views: map<ViewId, View>)
    requires WellFormed(s)
    ensures views.Keys == s.views.Keys
    ensures forall v :: v in s.views && v !in s.children ==> views[v] == s.views[v]
    ensures forall k :: 0 <= k < |s.children| ==> LaidOut(s, views, k)
  {
    views := s.views;
    var top := 0;
    var i := 0;
    while i < |s.children|
      invariant 0 <= i <= |s.children|
      invariant views.Keys == s.views.Keys
      invariant forall v :: v in s.views && v !in s.children ==> views[v] == s.views[v]
      invariant forall k :: i <= k < |s.children| ==> views[s.children[k]] == s.views[s.children[k]]
      invariant forall k :: 0 <= k < i ==> LaidOut(s, views, k)
      invariant top == if i == 0 then 0 else StackBase(s) + SumHeights(s.views, s.children[..i])
    {
      var v := s.children[i];
      assert s.children[..i + 1][..i] == s.children[..i];
      if !views[v].gone {
        if i == 0 {
          top := views[v].top;
        }
        var h := views[v].height;
        var before := views;
        views := views[v := views[v].(top := top, bottom := top + h)];
        LayOutOne(s, before, views, i, top);
        top := top + h;
      }
      i := i + 1;
    }
  }

  /** Lays the children out top to bottom: the first keeps its top and every
      later visible child starts at the bottom of the visible child above it. */
  method OnLayout(s: State) returns (r: State)
    requires WellFormed(s)
    ensures r == s.(views := r.views)
    ensures SameShape(s, r)
    ensures forall v :: v in s.views && v !in s.children ==> r.views[v] == s.views[v]
    ensures forall k :: 0 <= k < |s.children| ==> LaidOut(s, r.views, k)
    ensures |s.children| > 0 && !s.views[s.children[0]].gone ==>
      r.views[s.children[0]].top == s.views[s.children[0]].top
    ensures forall i, j ::
              && 0 <= i < j < |s.children|
              && !s.views[s.children[i]].gone && !s.views[s.children[j]].gone
              && GoneBetween(s, i, j)
              ==> r.views[s.children[j]].top == r.views[s.children[i]].bottom
    ensures |s.children| > 0 && !s.views[Last(s.children)].gone ==>
      r.views[Last(s.children)].bottom == StackBase(s) + SumHeights(s.views, s.children)
  {
    var views := PlaceChildren(s);
    r := s.(views := views);
    LaidOutFacts(s, views);
  }

  /** What a fully laid-out child list looks like from the outside. */
  lemma LaidOutFacts(s: State, views: map<ViewId, View>)
    requires WellFormed(s)
    requires views.Keys == s.views.Keys
    requires forall v :: v in s.views && v !in s.children ==> views[v] == s.views[v]
    requires forall k :: 0 <= k < |s.children| ==> LaidOut(s, views, k)
    ensures SameShape(s, s.(views := views))
    ensures |s.children| > 0 && !s.views[s.children[0]].gone ==>
      views[s.children[0]].top == s.views[s.children[0]].top
    ensures forall i, j ::
              && 0 <= i < j < |s.children|
              && !s.views[s.children[i]].gone && !s.views[s.children[j]].gone
              && GoneBetween(s, i, j)
              ==> views[s.children[j]].top == views[s.children[i]].bottom
    ensures |s.children| > 0 && !s.views[Last(s.children)].gone ==>
      views[Last(s.children)].bottom == StackBase(s) + SumHeights(s.views, s.children)
  {
    LaidOutKeepsParents(s, views);
    LaidOutContiguous(s, views);
    LaidOutEnds(s, views);
  }

  /** A laid-out stack starts at its base and ends the total stacked height
      below it. */
  lemma LaidOutEnds(s: State, views: map<ViewId, View>)
    requires WellFormed(s) && views.Keys == s.views.Keys
    requires forall k :: 0 <= k < |s.children| ==> LaidOut(s, views, k)
    ensures |s.children| > 0 && !s.views[s.children[0]].gone ==>
      views[s.children[0]].top == s.views[s.children[0]].top
    ensures |s.children| > 0 && !s.views[Last(s.children)].gone ==>
      views[Last(s.children)].bottom == StackBase(s) + SumHeights(s.views, s.children)
  {
    if |s.children| > 0 {
      var n := |s.children|;
      assert LaidOut(s, views, n - 1);
      assert s.children[..n][..n - 1] == s.children[..n - 1];
      assert s.children[..n] == s.children;
      if !s.views[s.children[0]].gone {
        assert LaidOut(s, views, 0);
      }
    }
  }

  /** Layout moves views but never reparents one. */
  lemma LaidOutKeepsParents(s: State, views: map<ViewId, View>)
    requires WellFormed(s)
    requires views.Keys == s.views.Keys
    requires forall v :: v in s.views && v !in s.children ==> views[v] == s.views[v]
    requires forall k :: 0 <= k < |s.children| ==> LaidOut(s, views, k)
    ensures SameShape(s, s.(views := views))
  {
    forall v | v in s.views
      ensures views[v].parent == s.views[v].parent
    {
      if v in s.children {
        var k :| 0 <= k < |s.children| && s.children[k] == v;
        assert LaidOut(s, views, k);
      }
    }
  }

  /** Consecutive visible children of a laid-out list touch. */
  lemma LaidOutContiguous(s: State, views: map<ViewId, View>)
    requires WellFormed(s) && views.Keys == s.views.Keys
    requires forall k :: 0 <= k < |s.children| ==> LaidOut(s, views, k)
    ensures forall i, j ::
              && 0 <= i < j < |s.children|
              && !s.views[s.children[i]].gone && !s.views[s.children[j]].gone
              && GoneBetween(s, i, j)
              ==> views[s.children[j]].top == views[s.children[i]].bottom
  {
    forall i, j | 0 <= i < j < |s.children| && !s.views[s.children[i]].gone
      && !s.views[s.children[j]].gone && GoneBetween(s, i, j)
      ensures views[s.children[j]].top == views[s.children[i]].bottom
    {
      assert LaidOut(s, views, i) && LaidOut(s, views, j);
      assert s.children[..i + 1][..i] == s.children[..i];
      SumSkipsGone(s, i, j);
    }
  }

  /** A prefix of cs never stacks higher than cs. */
  lemma {:induction false} SumHeightsPrefix(views: map<ViewId, View>, cs: seq<ViewId>, k: nat)
    requires AllKnown(views, cs) && k <= |cs|
    ensures AllKnown(views, cs[..k]) && SumHeights(views, cs[..k]) <= SumHeights(views, cs)
    decreases |cs|
  {
    if k < |cs| {
      var prefix := cs[..|cs| - 1];
      assert prefix[..k] == cs[..k];
      SumHeightsPrefix(views, prefix, k);
    } else {
      assert cs[..k] == cs;
    }
  }

  /** After layout the pin edge lies one last-child height below the last
      child's top edge. */
  lemma PinEdgeHeight(s: State, r: State)
    requires WellFormed(s) && WellFormed(r) && r == s.(views := r.views)
    requires r.views.Keys == s.views.Keys
    requires forall k :: 0 <= k < |s.children| ==> LaidOut(s, r.views, k)
    requires |s.children| > 0 && !s.views[Last(s.children)].gone
    ensures GetBoundSticky(r, true) - GetBoundSticky(r, false) == s.views[Last(s.children)].height
  {
    assert LaidOut(s, r.views, |s.children| - 1);
  }

  /** After layout the pin edge is the bottom of the whole stack: no visible
      child reaches below it. */
  lemma PinEdgeIsStackBottom(s: State, r: State)
    requires WellFormed(s) && WellFormed(r) && r == s.(views := r.views)
    requires r.views.Keys == s.views.Keys
    requires forall k :: 0 <= k < |s.children| ==> LaidOut(s, r.views, k)
    requires |s.children| > 0 && !s.views[Last(s.children)].gone
    ensures forall k :: 0 <= k < |s.children| && !r.views[s.children[k]].gone ==>
      s.screenY + r.views[s.children[k]].bottom <= GetBoundSticky(r, true)
  {
    LaidOutEnds(s, r.views);
    forall k | 0 <= k < |s.children| && !r.views[s.children[k]].gone
      ensures s.screenY + r.views[s.children[k]].bottom <= GetBoundSticky(r, true)
    {
      assert LaidOut(s, r.views, k);
      assert !s.views[s.children[k]].gone;
      assert s.children[..k + 1][..k] == s.children[..k];
      SumHeightsPrefix(s.views, s.children, k + 1);
    }
  }

  /** One measure-and-layout pass. Afterwards the pin edge (the screen y of
      the last child's bottom) lies exactly the overlay's measured height
      below where the stack starts. */
  method MeasureAndLayout(s: State) returns (r: State)
    requires WellFormed(s)
    ensures WellFormed(r)
    ensures Valid(s) ==> Valid(r)
    ensures r.measuredHeight == SumHeights(s.views, s.children)
    ensures |s.children| > 0 && !s.views[Last(s.children)].gone ==>
      GetBoundSticky(r, true) == r.screenY + StackBase(s) + r.measuredHeight
    ensures |s.children| > 0 && !s.views[Last(s.children)].gone ==>
      GetBoundSticky(r, true) - GetBoundSticky(r, false) == s.views[Last(s.children)].height
    ensures |s.children| > 0 && !s.views[Last(s.children)].gone ==>
      forall k :: 0 <= k < |r.children| && !r.views[r.children[k]].gone ==>
        r.screenY + r.views[r.children[k]].bottom <= GetBoundSticky(r, true)
  {
    var measured := OnMeasure(s);
    SameShapeKeepsValid(s, measured);
    r := OnLayout(measured);
    SameShapeKeepsValid(measured, r);
    if |s.children| > 0 && !s.views[Last(s.children)].gone {
      PinEdgeHeight(measured, r);
      PinEdgeIsStackBottom(measured, r);
    }
  }
}
