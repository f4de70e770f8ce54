/** The overlay container's state and its bookkeeping operations: the wrapper
    registry, the child list, reparenting a view, and the reaction to a child
    being added or removed. Geometry (measure, layout, movement) builds on
    this in the Layout and Movement modules. */
module Container {
  import opened Seqs
  import opened StickyWrapper

  /** Where a view hangs: nowhere, inside its wrapper, or in the overlay. */
  datatype Parent = Detached | Host(w: WrapperId) | Overlay

  /** A view: its single parent, its measured size, whether it is GONE, and
      its vertical extent inside its parent. */
  datatype View = View(parent: Parent, width: nat, height: nat, gone: bool, top: int, bottom: int)

  /** The container together with the views and wrappers it can see.
      screenY is the container's own top on screen (mLocation[1]);
      maxY is mMaxYForTargetSticky; ready is mIsReadyToMove. */
  datatype State = State(
    registry: seq<WrapperId>,
    wrappers: map<WrapperId, Wrapper>,
    views: map<ViewId, View>,
    children: seq<ViewId>,
    target: Option<WrapperId>,
    maxY: int,
    ready: bool,
    screenY: int,
    measuredWidth: int,
    measuredHeight: int)

  /** Every reference the container holds resolves, the child list has no
      repeats, and a view is a child exactly when its parent is the overlay. */
  predicate WellFormed(s: State) {
    && (forall i :: 0 <= i < |s.registry| ==> s.registry[i] in s.wrappers)
    && (forall w :: w in s.wrappers && s.wrappers[w].sticky.Some? ==> s.wrappers[w].sticky.value in s.views)
    && (forall i :: 0 <= i < |s.children| ==> s.children[i] in s.views)
    && NoDup(s.children)
    && (forall v :: v in s.views ==> (s.views[v].parent == Overlay <==> v in s.children))
    && (s.target.Some? ==> s.target.value in s.wrappers)
  }

  /** Two different wrappers never wrap the same view. */
  predicate StickiesDistinct(s: State) {
    forall w1, w2 :: w1 in s.wrappers && w2 in s.wrappers && w1 != w2 && s.wrappers[w1].sticky.Some?
      ==> s.wrappers[w1].sticky != s.wrappers[w2].sticky
  }

  /** A wrapped view hangs in its own wrapper or in the overlay, never elsewhere. */
  predicate HomeOrPinned(s: State, w: WrapperId)
    requires w in s.wrappers
  {
    var sticky := s.wrappers[w].sticky;
    sticky.Some? ==> sticky.value in s.views && s.views[sticky.value].parent in {Host(w), Overlay}
  }

  /** The target, when there is one, wraps the bottom child of the pinned stack. */
  predicate TargetIsLast(s: State) {
    s.target.Some? ==>
      s.target.value in s.wrappers && |s.children| > 0 && s.wrappers[s.target.value].sticky == Some(Last(s.children))
  }

  /** The invariant every transition of the engine keeps. */
  predicate Valid(s: State) {
    && WellFormed(s)
    && NoDup(s.registry)
    && StickiesDistinct(s)
    && (forall w :: w in s.wrappers ==> HomeOrPinned(s, w))
    && TargetIsLast(s)
  }

  /** Some registered wrapper wraps v. */
  predicate Registered(reg: seq<WrapperId>, wrappers: map<WrapperId, Wrapper>, v: ViewId) {
    exists i :: 0 <= i < |reg| && reg[i] in wrappers && wrappers[reg[i]].sticky == Some(v)
  }

  /** The first registered wrapper whose view is v. */
  function FindTarget(reg: seq<WrapperId>, wrappers: map<WrapperId, Wrapper>, v: ViewId): (r: Option<WrapperId>)
    ensures r.Some? ==> r.value in reg && r.value in wrappers && wrappers[r.value].sticky == Some(v)
    ensures r.None? <==> !Registered(reg, wrappers, v)
    ensures r.Some? ==> !Registered(reg[..IndexOf(reg, r.value)], wrappers, v)
  {
    if |reg| == 0 then None
    else if reg[0] in wrappers && wrappers[reg[0]].sticky == Some(v) then Some(reg[0])
    else
      var r := FindTarget(reg[1..], wrappers, v);
      assert Registered(reg[1..], wrappers, v) ==> Registered(reg, wrappers, v);
      if r.Some? then
        FirstWrapperSkipsHead(reg, wrappers, v, r.value);
        r
      else r
  }

  /** When the head of reg does not wrap v, no wrapper before x in reg wraps
      v exactly when none before x in reg's tail does. */
  lemma FirstWrapperSkipsHead(reg: seq<WrapperId>, wrappers: map<WrapperId, Wrapper>, v: ViewId, x: WrapperId)
    requires |reg| > 0 && x in reg[1..] && x in wrappers && wrappers[x].sticky == Some(v)
    requires !(reg[0] in wrappers && wrappers[reg[0]].sticky == Some(v))
    requires !Registered(reg[1..][..IndexOf(reg[1..], x)], wrappers, v)
    ensures !Registered(reg[..IndexOf(reg, x)], wrappers, v)
  {
    var k := IndexOf(reg[1..], x);
    assert reg[0] != x;
    assert IndexOf(reg, x) == k + 1;
    assert reg[..k + 1] == [reg[0]] + reg[1..][..k];
  }

  /** A child joined the overlay: the measured bounds are stale. */
  function OnViewAdded(s: State): (r: State)
    ensures !r.ready
    ensures r.(ready := s.ready) == s
  {
    s.(ready := false)
  }

  /** A child left the overlay: the bounds are stale and the target becomes
      the registered wrapper of the new bottom child, if any. */
  function OnViewRemoved(s: State): (r: State)
    ensures !r.ready
    ensures r.target.Some? ==> r.target.value in s.registry
    ensures r.target.Some? ==>
      r.target.value in s.wrappers && |s.children| > 0 && s.wrappers[r.target.value].sticky == Some(Last(s.children))
    ensures r.target.None? <==> |s.children| == 0 || !Registered(s.registry, s.wrappers, Last(s.children))
    ensures r.(ready := s.ready, target := s.target) == s
  {
    var target := if |s.children| > 0 then FindTarget(s.registry, s.wrappers, Last(s.children)) else None;
    s.(ready := false, target := target)
  }

  /** The views with v moved under p and nothing else touched. */
  function Reparent(views: map<ViewId, View>, v: ViewId, p: Parent): map<ViewId, View>
    requires v in views
  {
    views[v := views[v].(parent := p)]
  }

  /** addViewTo actually moves the child (it is non-null and not already under dest). */
  predicate Moves(s: State, child: Option<ViewId>, dest: Parent)
    requires child.Some? ==> child.value in s.views
  {
    child.Some? && s.views[child.value].parent != dest
  }

  /** Moving v under p keeps the state well formed when the new child list
      is duplicate-free, resolves, and holds v exactly when p is the overlay. */
  lemma MoveKeepsWellFormed(s: State, v: ViewId, p: Parent, t: State)
    requires WellFormed(s) && v in s.views
    requires t.registry == s.registry && t.wrappers == s.wrappers
    requires t.views == Reparent(s.views, v, p)
    requires NoDup(t.children)
    requires forall u :: u in t.children <==> (if u == v then p == Overlay else u in s.children)
    requires t.target.Some? ==> t.target.value in t.wrappers
    ensures WellFormed(t)
  {
    forall i | 0 <= i < |t.children|
      ensures t.children[i] in t.views
    {
      var u := t.children[i];
      if u != v {
        assert u in s.children;
      }
    }
  }

  /** The first half of addViewTo: v leaves its parent, and when that parent
      was the overlay, the overlay reacts to losing a child. */
  function Detach(s: State, v: ViewId): (r: State)
    requires WellFormed(s) && v in s.views
    ensures WellFormed(r) && v in r.views && r.views[v].parent == Detached
  {
    var views := Reparent(s.views, v, Detached);
    if s.views[v].parent == Overlay then
      RemoveFromNoDup(s.children, v);
      var r := OnViewRemoved(s.(children := Remove(s.children, v), views := views));
      MoveKeepsWellFormed(s, v, Detached, r);
      r
    else
      var r := s.(views := views);
      MoveKeepsWellFormed(s, v, Detached, r);
      r
  }

  /** The second half of addViewTo: a parentless v joins dest, and the
      overlay reacts when dest is the overlay. */
  function Attach(s: State, v: ViewId, dest: Parent): (r: State)
    requires WellFormed(s) && v in s.views && s.views[v].parent == Detached && dest != Detached
    ensures WellFormed(r) && v in r.views && r.views[v].parent == dest
  {
    var views := Reparent(s.views, v, dest);
    if dest == Overlay then
      var r := OnViewAdded(s.(children := s.children + [v], views := views));
      MoveKeepsWellFormed(s, v, dest, r);
      r
    else
      var r := s.(views := views);
      MoveKeepsWellFormed(s, v, dest, r);
      r
  }

  /** Moves child under dest: it leaves its old parent's child list (the
      overlay's, when that was its parent) and joins dest's. */
  function AddViewTo(s: State, child: Option<ViewId>, dest: Parent): (r: State)
    requires WellFormed(s)
    requires child.Some? ==> child.value in s.views
    requires dest != Detached
    ensures WellFormed(r)
    ensures !Moves(s, child, dest) ==> r == s
    ensures Moves(s, child, dest) ==>
      var v := child.value;
      && r.views == Reparent(s.views, v, dest)
      && (s.views[v].parent == Overlay ==>
            && r.children == Remove(s.children, v) && v !in r.children
            && r.target == (if |r.children| > 0 then FindTarget(s.registry, s.wrappers, Last(r.children)) else None)
            && TargetIsLast(r) && (r.target.Some? ==> r.target.value in s.registry))
      && (dest == Overlay ==> r.children == s.children + [v] && r.target == s.target)
      && (s.views[v].parent != Overlay && dest != Overlay ==> r.children == s.children && r.target == s.target)
      && (s.views[v].parent == Overlay || dest == Overlay ==> !r.ready)
    ensures r.registry == s.registry && r.wrappers == s.wrappers
    ensures r.(views := s.views, children := s.children, ready := s.ready, target := s.target) == s
  {
    match child
    case None => s
    case Some(v) =>
      if s.views[v].parent == dest then s
      else
        MoveFacts(s, v, dest);
        Attach(Detach(s, v), v, dest)
  }

  /** What a reparent of v to a new parent dest does, case by case. */
  lemma MoveFacts(s: State, v: ViewId, dest: Parent)
    requires WellFormed(s) && v in s.views && s.views[v].parent != dest && dest != Detached
    ensures var r := Attach(Detach(s, v), v, dest);
      && WellFormed(r)
      && r.views == Reparent(s.views, v, dest)
      && (s.views[v].parent == Overlay ==>
            && r.children == Remove(s.children, v) && v !in r.children
            && r.target == (if |r.children| > 0 then FindTarget(s.registry, s.wrappers, Last(r.children)) else None)
            && TargetIsLast(r) && (r.target.Some? ==> r.target.value in s.registry))
      && (dest == Overlay ==> r.children == s.children + [v] && r.target == s.target)
      && (s.views[v].parent != Overlay && dest != Overlay ==> r.children == s.children && r.target == s.target)
      && (s.views[v].parent == Overlay || dest == Overlay ==> !r.ready)
      && r.registry == s.registry && r.wrappers == s.wrappers
      && r.(views := s.views, children := s.children, ready := s.ready, target := s.target) == s
  {
    var d := Detach(s, v);
    DetachEffect(s, v);
    AttachEffect(d, v, dest);
    if s.views[v].parent == Overlay {
      LeavingOverlay(s, v, dest);
    }
  }

  /** Field by field, what Detach changes. */
  lemma DetachEffect(s: State, v: ViewId)
    requires WellFormed(s) && v in s.views
    ensures var d := Detach(s, v);
      && d.views == Reparent(s.views, v, Detached)
      && (s.views[v].parent == Overlay ==> d.children == Remove(s.children, v) && !d.ready)
      && (s.views[v].parent != Overlay ==> d.children == s.children && d.ready == s.ready && d.target == s.target)
      && d.(views := s.views, children := s.children, ready := s.ready, target := s.target) == s
  {
  }

  /** Field by field, what Attach changes. */
  lemma AttachEffect(s: State, v: ViewId, dest: Parent)
    requires WellFormed(s) && v in s.views && s.views[v].parent == Detached && dest != Detached
    ensures var r := Attach(s, v, dest);
      && r.views == Reparent(s.views, v, dest)
      && (dest == Overlay ==> r.children == s.children + [v] && !r.ready)
      && (dest != Overlay ==> r.children == s.children && r.ready == s.ready)
      && r.target == s.target
      && r.(views := s.views, children := s.children, ready := s.ready) == s
  {
  }

  /** A child moved out of the overlay into a wrapper leaves the child list,
      and the overlay retargets to the new last child. */
  lemma LeavingOverlay(s: State, v: ViewId, dest: Parent)
    requires WellFormed(s) && v in s.views && s.views[v].parent == Overlay
    requires dest != Detached && dest != Overlay
    ensures var r := Attach(Detach(s, v), v, dest);
      && r.children == Remove(s.children, v) && v !in r.children
      && r.target == (if |r.children| > 0 then FindTarget(s.registry, s.wrappers, Last(r.children)) else None)
      && TargetIsLast(r) && (r.target.Some? ==> r.target.value in s.registry)
      && !r.ready
  {
    RemoveFromNoDup(s.children, v);
  }

  /** Registers a wrapper unless it is null or already registered. */
  function AddSticky(s: State, wrapper: Option<WrapperId>): (r: State)
    requires wrapper.Some? ==> wrapper.value in s.wrappers
    ensures wrapper.None? || wrapper.value in s.registry ==> r == s
    ensures wrapper.Some? && wrapper.value !in s.registry ==> r == s.(registry := s.registry + [wrapper.value])
    ensures wrapper.Some? ==> wrapper.value in r.registry
    ensures NoDup(s.registry) ==> NoDup(r.registry)
    ensures Valid(s) ==> Valid(r)
  {
    if wrapper.None? || wrapper.value in s.registry then s
    else s.(registry := s.registry + [wrapper.value])
  }

  /** Unregisters a wrapper; if its view is pinned, the view goes straight
      back into the wrapper. */
  function RemoveSticky(s: State, wrapper: Option<WrapperId>): (r: State)
    requires WellFormed(s)
    ensures wrapper.None? || wrapper.value !in s.registry ==> r == s
    ensures wrapper.Some? ==> r.registry == Remove(s.registry, wrapper.value)
    ensures wrapper.Some? && NoDup(s.registry) ==> wrapper.value !in r.registry
    ensures wrapper.Some? && wrapper.value in s.registry ==>
      var sticky := s.wrappers[wrapper.value].sticky;
      if sticky.Some? && sticky.value in s.children then
        && r.views == Reparent(s.views, sticky.value, Host(wrapper.value))
        && r.children == Remove(s.children, sticky.value)
        && r.target == (if |r.children| > 0 then FindTarget(r.registry, s.wrappers, Last(r.children)) else None)
        && !r.ready
      else
        r == s.(registry := r.registry)
    ensures r.wrappers == s.wrappers && r.maxY == s.maxY && r.screenY == s.screenY
    ensures WellFormed(r)
  {
    if wrapper.None? || wrapper.value !in s.registry then s
    else
      var w := wrapper.value;
      RemoveSubset(s.registry, w);
      RemoveIfNoDup(s.registry, w);
      var unregistered := s.(registry := Remove(s.registry, w));
      assert WellFormed(unregistered);
      var sticky := s.wrappers[w].sticky;
      if sticky.Some? && sticky.value in s.children then
        // removeViewAt followed by the wrapper's addView is exactly a move home
        AddViewTo(unregistered, sticky, Host(w))
      else
        unregistered
  }

  /** Sending a wrapped view back into its own wrapper keeps the invariant. */
  lemma ReturnHomeKeepsValid(s: State, w: WrapperId)
    requires Valid(s) && w in s.wrappers && s.wrappers[w].sticky.Some?
    ensures Valid(AddViewTo(s, s.wrappers[w].sticky, Host(w)))
  {
    var v := s.wrappers[w].sticky.value;
    var r := AddViewTo(s, s.wrappers[w].sticky, Host(w));
    forall w' | w' in r.wrappers
      ensures HomeOrPinned(r, w')
    {
      assert HomeOrPinned(s, w');
    }
  }

  /** Unregistering a wrapper keeps the invariant. */
  lemma RemoveStickyKeepsValid(s: State, wrapper: Option<WrapperId>)
    requires Valid(s)
    ensures Valid(RemoveSticky(s, wrapper))
  {
    if wrapper.Some? && wrapper.value in s.registry {
      var w := wrapper.value;
      RemoveFromNoDup(s.registry, w);
      RemoveSubset(s.registry, w);
      var unregistered := s.(registry := Remove(s.registry, w));
      RegistryKeepsValid(s, unregistered.registry);
      var sticky := s.wrappers[w].sticky;
      if sticky.Some? && sticky.value in s.children {
        assert RemoveSticky(s, wrapper) == AddViewTo(unregistered, sticky, Host(w));
        ReturnHomeKeepsValid(unregistered, w);
      } else {
        assert RemoveSticky(s, wrapper) == unregistered;
      }
    }
  }

  /** Replacing the registry by a duplicate-free list of known wrappers keeps
      the invariant: nothing else in it mentions the registry. */
  lemma RegistryKeepsValid(s: State, reg: seq<WrapperId>)
    requires Valid(s) && NoDup(reg)
    requires forall x :: x in reg ==> x in s.registry
    ensures Valid(s.(registry := reg))
  {
    var r := s.(registry := reg);
    forall i | 0 <= i < |reg|
      ensures reg[i] in r.wrappers
    {
      assert reg[i] in s.registry;
    }
    forall w | w in r.wrappers
      ensures HomeOrPinned(r, w)
    {
      assert HomeOrPinned(s, w);
    }
  }

  /** Registering a wrapper whose view is not pinned and unregistering it
      again leaves the container exactly as it was. */
  lemma AddThenRemoveSticky(s: State, w: WrapperId)
    requires Valid(s) && w in s.wrappers && w !in s.registry
    requires s.wrappers[w].sticky.Some? ==> s.wrappers[w].sticky.value !in s.children
    ensures RemoveSticky(AddSticky(s, Some(w)), Some(w)) == s
  {
    RemoveAppended(s.registry, w);
  }

  /** r differs from s at most in geometry, wrapper readings and the
      container's own measured fields: no parent, child, registry or target
      changed. */
  predicate SameShape(s: State, r: State) {
    && r.registry == s.registry && r.children == s.children && r.target == s.target
    && r.views.Keys == s.views.Keys
    && (forall v :: v in s.views ==> r.views[v].parent == s.views[v].parent)
    && r.wrappers.Keys == s.wrappers.Keys
    && (forall w :: w in s.wrappers ==> r.wrappers[w].sticky == s.wrappers[w].sticky)
  }

  /** Geometry and readings never matter to the invariant. */
  lemma SameShapeKeepsValid(s: State, r: State)
    requires SameShape(s, r)
    ensures WellFormed(s) ==> WellFormed(r)
    ensures Valid(s) ==> Valid(r)
  {
    if Valid(s) {
      forall w | w in r.wrappers
        ensures HomeOrPinned(r, w)
      {
        assert HomeOrPinned(s, w);
      }
    }
  }

  /** The screen y of the bottom (or top) edge of the last child: the pin
      edge sticky views are compared with. Without children it is the
      container's own top. */
  function GetBoundSticky(s: State, bottom: bool): (r: int)
    requires WellFormed(s)
  {
    if |s.children| == 0 then s.screenY
    else
      var last := s.views[Last(s.children)];
      s.screenY + (if bottom then last.bottom else last.top)
  }
}
