/** One scroll tick of the sticky engine: pinning views that reached the pin
    edge, moving the pinned stack with the target, and queueing the target's
    return home once it has scrolled back out. Reparents are deferred (the
    source posts them to the message loop) and applied at the end of the
    tick, in the order they were queued. */
module Movement {
  import opened Seqs
  import opened StickyWrapper
  import opened Container
  import opened LegalDelta

  /** A deferred reparent: pin v (wrapped by w) into the overlay and make w
      the target, or send v back into w. */
  datatype Action = Pin(w: WrapperId, v: ViewId) | Unpin(w: WrapperId, v: ViewId)

  /** A state together with the reparents queued while reaching it. */
  datatype Step = Step(state: State, pending: seq<Action>)

  /** A view moved vertically by d. */
  function Shift(v: View, d: int): View {
    v.(top := v.top + d, bottom := v.bottom + d)
  }

  /** Moves every child of the overlay, and nothing else, by d. */
  function OffsetChildren(s: State, d: int): (r: State)
    requires WellFormed(s)
    ensures SameShape(s, r) && r == s.(views := r.views)
    ensures forall i :: 0 <= i < |s.children| ==> r.views[s.children[i]] == Shift(s.views[s.children[i]], d)
    ensures forall v :: v in s.views && v !in s.children ==> r.views[v] == s.views[v]
  {
    s.(views := map v | v in s.views :: if v in s.children then Shift(s.views[v], d) else s.views[v])
  }

  /** Offsetting by d and then by -d restores every view. */
  lemma OffsetChildrenRoundTrip(s: State, d: int)
    requires WellFormed(s)
    ensures OffsetChildren(OffsetChildren(s, d), -d) == s
  {
    var back := OffsetChildren(OffsetChildren(s, d), -d);
    assert back.views == s.views;
  }

  /** The action refers to a known wrapper and the view it wraps. */
  predicate Fits(s: State, a: Action) {
    a.w in s.wrappers && s.wrappers[a.w].sticky == Some(a.v)
  }

  /** Every queued action fits s. */
  predicate AllFit(s: State, acts: seq<Action>) {
    forall i :: 0 <= i < |acts| ==> Fits(s, acts[i])
  }

  /** A queue whose replay keeps the invariant: pins are for views not yet
      pinned, and no view is queued twice. */
  predicate PendingOk(s: State, acts: seq<Action>)
    requires WellFormed(s) && AllFit(s, acts)
  {
    && (forall i :: 0 <= i < |acts| && acts[i].Pin? ==> s.views[acts[i].v].parent != Overlay)
    && (forall i, j :: 0 <= i < j < |acts| ==> acts[i].v != acts[j].v)
  }

  /** Runs one queued reparent. */
  function Apply(s: State, a: Action): (r: State)
    requires WellFormed(s) && Fits(s, a)
    ensures WellFormed(r)
    ensures r.registry == s.registry && r.wrappers == s.wrappers && r.views.Keys == s.views.Keys
    ensures forall u :: u in s.views && u != a.v ==> r.views[u] == s.views[u]
    ensures a.Pin? ==> r.target == Some(a.w) && r.views[a.v].parent == Overlay
    ensures a.Pin? && s.views[a.v].parent != Overlay ==> r.children == s.children + [a.v]
    ensures a.Unpin? ==> r.views[a.v].parent == Host(a.w) && a.v !in r.children
  {
    match a
    case Pin(w, v) =>
      var added := AddViewTo(s, Some(v), Overlay);
      added.(target := Some(w))
    case Unpin(w, v) =>
      AddViewTo(s, Some(v), Host(w))
  }

  /** Runs the queued reparents in order. */
  function ApplyAll(s: State, acts: seq<Action>): (r: State)
    requires WellFormed(s) && AllFit(s, acts)
    ensures WellFormed(r)
    ensures r.registry == s.registry && r.wrappers == s.wrappers && r.views.Keys == s.views.Keys
    decreases |acts|
  {
    if |acts| == 0 then s
    else
      var next := Apply(s, acts[0]);
      assert AllFit(next, acts[1..]);
      ApplyAll(next, acts[1..])
  }

  /** Pinning a view that is not pinned yet keeps the invariant: it becomes
      the bottom child and its wrapper the target. */
  lemma ApplyKeepsValid(s: State, a: Action)
    requires Valid(s) && Fits(s, a)
    requires a.Pin? ==> s.views[a.v].parent != Overlay
    ensures Valid(Apply(s, a))
  {
    if a.Unpin? {
      ReturnHomeKeepsValid(s, a.w);
    } else {
      var r := Apply(s, a);
      forall w | w in r.wrappers
        ensures HomeOrPinned(r, w)
      {
        assert HomeOrPinned(s, w);
      }
    }
  }

  /** Replaying a well-formed queue keeps the invariant. */
  lemma {:induction false} ApplyAllKeepsValid(s: State, acts: seq<Action>)
    requires Valid(s) && AllFit(s, acts) && PendingOk(s, acts)
    ensures Valid(ApplyAll(s, acts))
    decreases |acts|
  {
    if |acts| > 0 {
      ApplyKeepsValid(s, acts[0]);
      var next := Apply(s, acts[0]);
      var rest := acts[1..];
      assert AllFit(next, rest);
      forall i | 0 <= i < |rest| && rest[i].Pin?
        ensures next.views[rest[i].v].parent != Overlay
      {
        assert acts[i + 1] == rest[i];
      }
      ApplyAllKeepsValid(next, rest);
    }
  }

  /** The views a queue names, in queue order. */
  function QueuedViews(acts: seq<Action>): (vs: seq<ViewId>)
    ensures |vs| == |acts| && forall i :: 0 <= i < |acts| ==> vs[i] == acts[i].v
  {
    if |acts| == 0 then []
    else
      var rest := QueuedViews(acts[1..]);
      assert forall i :: 1 <= i < |acts| ==> acts[i] == acts[1..][i - 1];
      [acts[0].v] + rest
  }

  /** Replaying a + b is replaying a and then b. */
  lemma {:induction false} ApplyAllAppend(s: State, a: seq<Action>, b: seq<Action>)
    requires WellFormed(s) && AllFit(s, a + b)
    ensures AllFit(s, a) && AllFit(ApplyAll(s, a), b)
    ensures ApplyAll(s, a + b) == ApplyAll(ApplyAll(s, a), b)
    decreases |a|
  {
    assert forall i :: 0 <= i < |a| ==> a[i] == (a + b)[i];
    assert forall i :: 0 <= i < |b| ==> b[i] == (a + b)[|a| + i];
    if |a| > 0 {
      var next := Apply(s, a[0]);
      assert (a + b)[0] == a[0];
      assert (a + b)[1..] == a[1..] + b;
      assert AllFit(next, a[1..] + b);
      ApplyAllAppend(next, a[1..], b);
    } else {
      assert a + b == b;
    }
  }

  /** Replaying pins for views not yet pinned appends those views to the
      bottom of the stack in queue order, and the last pin's wrapper ends up
      the target: each pin's setTarget overrides the previous one. */
  lemma ApplyPinsStack(s: State, pins: seq<Action>)
    requires WellFormed(s) && AllFit(s, pins) && PendingOk(s, pins)
    requires forall i :: 0 <= i < |pins| ==> pins[i].Pin?
    ensures ApplyAll(s, pins).children == s.children + QueuedViews(pins)
    ensures ApplyAll(s, pins).target == (if |pins| > 0 then Some(Last(pins).w) else s.target)
  {
    ApplyPinsAppend(s, pins);
    ApplyPinsTarget(s, pins);
  }

  /** Replayed pins append their views to the stack in queue order. */
  lemma {:induction false} ApplyPinsAppend(s: State, pins: seq<Action>)
    requires WellFormed(s) && AllFit(s, pins) && PendingOk(s, pins)
    requires forall i :: 0 <= i < |pins| ==> pins[i].Pin?
    ensures ApplyAll(s, pins).children == s.children + QueuedViews(pins)
    decreases |pins|
  {
    if |pins| > 0 {
      var next := Apply(s, pins[0]);
      var rest := pins[1..];
      PendingOkAfterHead(s, pins);
      assert forall i :: 0 <= i < |rest| ==> rest[i] == pins[i + 1];
      ApplyPinsAppend(next, rest);
      assert next.children == s.children + [pins[0].v];
      assert QueuedViews(pins) == [pins[0].v] + QueuedViews(rest);
      AppendAssoc(s.children, pins[0].v, QueuedViews(rest));
    } else {
      assert ApplyAll(s, pins) == s;
    }
  }

  /** Fitting depends only on the wrappers, so a queue's tail still fits a
      state with the same wrappers. */
  lemma AllFitTail(s: State, r: State, acts: seq<Action>)
    requires r.wrappers == s.wrappers && AllFit(s, acts) && |acts| > 0
    ensures AllFit(r, acts[1..])
  {
    assert forall i :: 0 <= i < |acts[1..]| ==> acts[1..][i] == acts[i + 1];
  }

  /** The tail of a queue of pins holds only pins. */
  lemma PinsTail(acts: seq<Action>)
    requires |acts| > 0 && forall i :: 0 <= i < |acts| ==> acts[i].Pin?
    ensures forall i :: 0 <= i < |acts[1..]| ==> acts[1..][i].Pin?
  {
    assert forall i :: 0 <= i < |acts[1..]| ==> acts[1..][i] == acts[i + 1];
  }

  /** After replayed pins the last pin's wrapper is the target. */
  lemma {:induction false} ApplyPinsTarget(s: State, pins: seq<Action>)
    requires WellFormed(s) && AllFit(s, pins)
    requires forall i :: 0 <= i < |pins| ==> pins[i].Pin?
    ensures ApplyAll(s, pins).target == (if |pins| > 0 then Some(Last(pins).w) else s.target)
    decreases |pins|
  {
    if |pins| > 0 {
      var next := Apply(s, pins[0]);
      var rest := pins[1..];
      AllFitTail(s, next, pins);
      assert ApplyAll(s, pins) == ApplyAll(next, rest);
      if |rest| > 0 {
        PinsTail(pins);
        ApplyPinsTarget(next, rest);
        LastOfTail(pins);
      } else {
        assert ApplyAll(next, rest) == next;
      }
    }
  }

  /** A safe queue's prefix is safe, and no view of the prefix comes again
      after it. */
  lemma PendingOkPrefix(s: State, a: seq<Action>, b: seq<Action>)
    requires WellFormed(s) && AllFit(s, a + b) && PendingOk(s, a + b)
    ensures AllFit(s, a) && PendingOk(s, a)
    ensures forall i, j :: 0 <= i < |a| && 0 <= j < |b| ==> a[i].v != b[j].v
  {
    assert forall i :: 0 <= i < |a| ==> (a + b)[i] == a[i];
    assert forall j :: 0 <= j < |b| ==> (a + b)[|a| + j] == b[j];
  }

  /** A queue of pins followed by the target's return: the pinned views
      join the stack in queue order and the returning view leaves it. */
  lemma PinsThenReturn(s: State, pins: seq<Action>, u: Action)
    requires WellFormed(s) && AllFit(s, pins + [u]) && PendingOk(s, pins + [u])
    requires forall i :: 0 <= i < |pins| ==> pins[i].Pin?
    requires u.Unpin? && Fits(s, u) && s.views[u.v].parent == Overlay
    ensures ApplyAll(s, pins + [u]).children == Remove(s.children, u.v) + QueuedViews(pins)
    ensures ApplyAll(s, pins + [u]).target ==
      (var cs := Remove(s.children, u.v) + QueuedViews(pins);
       if |cs| > 0 then FindTarget(s.registry, s.wrappers, Last(cs)) else None)
  {
    PendingOkPrefix(s, pins, [u]);
    ApplyAllAppend(s, pins, [u]);
    var st := ApplyAll(s, pins);
    ApplyPinsAppend(s, pins);
    ApplyAllKeeps(s, pins, u.v);
    assert ApplyAll(st, [u]) == Apply(st, u);
    RemoveFromFront(s.children, QueuedViews(pins), u.v);
  }

  /** After a return following at least one pin, the overlay picks the
      wrapper of the new bottom child, which is the last pin's wrapper. */
  lemma ReturnKeepsLastPin(s: State, pins: seq<Action>, u: ViewId)
    requires Valid(s) && |pins| > 0 && Fits(s, Last(pins)) && Last(pins).w in s.registry
    requires u in s.children
    ensures var cs := Remove(s.children, u) + QueuedViews(pins);
      |cs| > 0 && FindTarget(s.registry, s.wrappers, Last(cs)) == Some(Last(pins).w)
  {
    var p := Last(pins);
    assert Registered(s.registry, s.wrappers, p.v) by {
      var k := IndexOf(s.registry, p.w);
      assert s.registry[k] == p.w;
    }
    assert StickiesDistinct(s);
  }

  /** The shape of a tick's queue: registered pins for views not yet pinned,
      then at most the return of a pinned view, no view named twice. */
  predicate TickQueue(s: State, pins: seq<Action>, pending: seq<Action>) {
    && Valid(s) && AllFit(s, pins + pending) && PendingOk(s, pins + pending)
    && (forall i :: 0 <= i < |pins| ==> pins[i].Pin? && pins[i].w in s.registry)
    && |pending| <= 1
    && (pending != [] ==>
          pending[0].Unpin? && Fits(s, pending[0]) && s.views[pending[0].v].parent == Overlay)
  }

  /** What replaying a tick's queue does to the stack and the target: the
      pins' views are appended in queue order, a queued return takes its
      view out first, and the last pin's wrapper ends up the target. */
  lemma ReplayStacks(s: State, pins: seq<Action>, pending: seq<Action>)
    requires TickQueue(s, pins, pending)
    ensures pending == [] ==> ApplyAll(s, pins + pending).children == s.children + QueuedViews(pins)
    ensures pending != [] ==>
      ApplyAll(s, pins + pending).children == Remove(s.children, pending[0].v) + QueuedViews(pins)
    ensures |pins| > 0 ==> ApplyAll(s, pins + pending).target == Some(Last(pins).w)
  {
    if pending == [] {
      assert pins + pending == pins;
      ApplyPinsStack(s, pins);
    } else {
      var u := pending[0];
      assert pending == [u];
      PinsThenReturn(s, pins, u);
      PendingOkPrefix(s, pins, pending);
      if |pins| > 0 {
        assert Last(pins) == pins[|pins| - 1];
        assert Fits(s, Last(pins)) && Last(pins).w in s.registry;
        assert u.v in s.children;
        ReturnKeepsLastPin(s, pins, u.v);
      }
    }
  }

  /** Once the head of a safe queue has run, the rest of it is still safe. */
  lemma PendingOkAfterHead(s: State, acts: seq<Action>)
    requires WellFormed(s) && AllFit(s, acts) && PendingOk(s, acts) && |acts| > 0
    ensures AllFit(Apply(s, acts[0]), acts[1..])
    ensures PendingOk(Apply(s, acts[0]), acts[1..])
  {
    var next := Apply(s, acts[0]);
    var rest := acts[1..];
    assert forall i :: 0 <= i < |rest| ==> rest[i] == acts[i + 1];
    assert AllFit(next, rest);
    forall i | 0 <= i < |rest| && rest[i].Pin?
      ensures next.views[rest[i].v].parent != Overlay
    {
      assert acts[0].v != acts[i + 1].v;
    }
  }

  /** After a replay every queued view hangs where its action put it. */
  lemma {:induction false} ApplyAllPlaces(s: State, acts: seq<Action>)
    requires WellFormed(s) && AllFit(s, acts)
    requires forall i, j :: 0 <= i < j < |acts| ==> acts[i].v != acts[j].v
    ensures forall i :: 0 <= i < |acts| ==>
      ApplyAll(s, acts).views[acts[i].v].parent == (if acts[i].Pin? then Overlay else Host(acts[i].w))
    decreases |acts|
  {
    if |acts| > 0 {
      var next := Apply(s, acts[0]);
      var rest := acts[1..];
      AllFitTail(s, next, acts);
      DistinctTail(acts);
      ApplyAllPlaces(next, rest);
      ApplyAllKeeps(next, rest, acts[0].v);
      ConsPlaced(ApplyAll(s, acts), acts);
    }
  }

  /** In a queue naming distinct views, the tail names distinct views too,
      none of them the head's. */
  lemma DistinctTail(acts: seq<Action>)
    requires |acts| > 0 && forall i, j :: 0 <= i < j < |acts| ==> acts[i].v != acts[j].v
    ensures forall i, j :: 0 <= i < j < |acts[1..]| ==> acts[1..][i].v != acts[1..][j].v
    ensures forall i :: 0 <= i < |acts[1..]| ==> acts[1..][i].v != acts[0].v
  {
    assert forall i :: 0 <= i < |acts[1..]| ==> acts[1..][i] == acts[i + 1];
  }

  /** The head's view is placed and so is every view of the tail, so every
      view of the queue is placed. */
  lemma ConsPlaced(r: State, acts: seq<Action>)
    requires |acts| > 0 && forall i :: 0 <= i < |acts| ==> acts[i].v in r.views
    requires r.views[acts[0].v].parent == (if acts[0].Pin? then Overlay else Host(acts[0].w))
    requires forall i :: 0 <= i < |acts[1..]| ==>
      r.views[acts[1..][i].v].parent == (if acts[1..][i].Pin? then Overlay else Host(acts[1..][i].w))
    ensures forall i :: 0 <= i < |acts| ==>
      r.views[acts[i].v].parent == (if acts[i].Pin? then Overlay else Host(acts[i].w))
  {
    forall i | 0 < i < |acts|
      ensures r.views[acts[i].v].parent == (if acts[i].Pin? then Overlay else Host(acts[i].w))
    {
      assert acts[i] == acts[1..][i - 1];
    }
  }

  /** A replay leaves alone every view it does not name. */
  lemma {:induction false} ApplyAllKeeps(s: State, acts: seq<Action>, u: ViewId)
    requires WellFormed(s) && AllFit(s, acts) && u in s.views
    requires forall i :: 0 <= i < |acts| ==> acts[i].v != u
    ensures ApplyAll(s, acts).views[u] == s.views[u]
    decreases |acts|
  {
    if |acts| > 0 {
      var next := Apply(s, acts[0]);
      assert AllFit(next, acts[1..]);
      ApplyAllKeeps(next, acts[1..], u);
    }
  }

  /** The wrapper is registered-visible, its view is not in the overlay yet,
      and this tick's reading puts the view's top at or above the pin edge. */
  predicate Pinnable(s: State, w: WrapperId, readings: WrapperId -> int)
    requires WellFormed(s)
  {
    && w in s.wrappers
    && s.wrappers[w].sticky.Some?
    && s.views[s.wrappers[w].sticky.value].parent != Overlay
    && readings(w) <= GetBoundSticky(s, true)
  }

  /** The wrapper's view is known and not in the overlay, so this tick reads
      its location. */
  predicate Scanned(s: State, w: WrapperId)
    requires WellFormed(s) && w in s.wrappers
  {
    s.wrappers[w].sticky.Some? && s.views[s.wrappers[w].sticky.value].parent != Overlay
  }

  /** The pins the registry loop queues: one per wrapper of ws, in order,
      whose view is not pinned and whose fresh reading reached the pin edge.
      The decision reads only that wrapper's own reading and the pin edge,
      which the loop never changes, so it can be taken against s. */
  function PinsFor(s: State, ws: seq<WrapperId>, readings: WrapperId -> int): (pins: seq<Action>)
    requires WellFormed(s) && forall i :: 0 <= i < |ws| ==> ws[i] in s.wrappers
    ensures PinsOk(s, ws, readings, pins)
    ensures AllFit(s, pins)
    ensures forall i :: 0 <= i < |pins| ==>
      pins[i].Pin? && pins[i].w in ws && Pinnable(s, pins[i].w, readings)
    ensures forall i :: 0 <= i < |ws| && Pinnable(s, ws[i], readings) ==>
      Pin(ws[i], s.wrappers[ws[i]].sticky.value) in pins
    ensures NoDup(ws) ==> forall i, j :: 0 <= i < j < |pins| ==> pins[i].w != pins[j].w
    ensures NoDup(ws) ==> forall i, j :: 0 <= i < j < |pins| ==> IndexOf(ws, pins[i].w) < IndexOf(ws, pins[j].w)
    decreases |ws|
  {
    if |ws| == 0 then []
    else
      var w := ws[0];
      var rest := PinsFor(s, ws[1..], readings);
      var pins := if Pinnable(s, w, readings) then [Pin(w, s.wrappers[w].sticky.value)] + rest else rest;
      PinsForCons(s, ws, readings, rest, pins);
      pins
  }

  /** What the registry loop's pins over ws promise: each is a pin for a
      pinnable wrapper of ws, every pinnable wrapper of ws gets one, and
      over a duplicate-free ws they come one per wrapper in ws's order. */
  predicate PinsOk(s: State, ws: seq<WrapperId>, readings: WrapperId -> int, pins: seq<Action>)
    requires WellFormed(s) && forall i :: 0 <= i < |ws| ==> ws[i] in s.wrappers
  {
    && AllFit(s, pins)
    && (forall i :: 0 <= i < |pins| ==> pins[i].Pin? && pins[i].w in ws && Pinnable(s, pins[i].w, readings))
    && (forall i :: 0 <= i < |ws| && Pinnable(s, ws[i], readings) ==>
          Pin(ws[i], s.wrappers[ws[i]].sticky.value) in pins)
    && (NoDup(ws) ==> forall i, j :: 0 <= i < j < |pins| ==> IndexOf(ws, pins[i].w) < IndexOf(ws, pins[j].w))
  }

  /** One step of the registry loop: the head's pin, if any, goes in front
      of the tail's pins. */
  lemma PinsForCons(s: State, ws: seq<WrapperId>, readings: WrapperId -> int, rest: seq<Action>, pins: seq<Action>)
    requires WellFormed(s) && |ws| > 0 && forall i :: 0 <= i < |ws| ==> ws[i] in s.wrappers
    requires PinsOk(s, ws[1..], readings, rest)
    requires pins == if Pinnable(s, ws[0], readings) then [Pin(ws[0], s.wrappers[ws[0]].sticky.value)] + rest else rest
    ensures PinsOk(s, ws, readings, pins)
    ensures NoDup(ws) ==> forall i, j :: 0 <= i < j < |pins| ==> pins[i].w != pins[j].w
  {
    ConsSound(s, ws, readings, rest, pins);
    ConsComplete(s, ws, readings, rest, pins);
    PinsForOrder(ws, rest);
    if NoDup(ws) && pins != rest {
      ConsOrdered(ws, rest, pins);
    }
  }

  /** Every pin of a step is a pin for a pinnable wrapper of ws. */
  lemma ConsSound(s: State, ws: seq<WrapperId>, readings: WrapperId -> int, rest: seq<Action>, pins: seq<Action>)
    requires WellFormed(s) && |ws| > 0 && ws[0] in s.wrappers
    requires AllFit(s, rest)
    requires forall i :: 0 <= i < |rest| ==> rest[i].Pin? && rest[i].w in ws[1..] && Pinnable(s, rest[i].w, readings)
    requires pins == if Pinnable(s, ws[0], readings) then [Pin(ws[0], s.wrappers[ws[0]].sticky.value)] + rest else rest
    ensures AllFit(s, pins)
    ensures forall i :: 0 <= i < |pins| ==> pins[i].Pin? && pins[i].w in ws && Pinnable(s, pins[i].w, readings)
  {
    forall i | 0 <= i < |pins|
      ensures Fits(s, pins[i]) && pins[i].Pin? && pins[i].w in ws && Pinnable(s, pins[i].w, readings)
    {
      if pins != rest && i == 0 {
        assert pins[0].w == ws[0];
      } else {
        var k := if pins == rest then i else i - 1;
        assert pins[i] == rest[k];
        assert rest[k].w in ws[1..];
      }
    }
  }

  /** A step pins every pinnable wrapper of ws. */
  lemma ConsComplete(s: State, ws: seq<WrapperId>, readings: WrapperId -> int, rest: seq<Action>, pins: seq<Action>)
    requires WellFormed(s) && |ws| > 0 && forall i :: 0 <= i < |ws| ==> ws[i] in s.wrappers
    requires PinsOk(s, ws[1..], readings, rest)
    requires pins == if Pinnable(s, ws[0], readings) then [Pin(ws[0], s.wrappers[ws[0]].sticky.value)] + rest else rest
    ensures forall i :: 0 <= i < |ws| && Pinnable(s, ws[i], readings) ==>
      Pin(ws[i], s.wrappers[ws[i]].sticky.value) in pins
  {
    forall i | 0 <= i < |ws| && Pinnable(s, ws[i], readings)
      ensures Pin(ws[i], s.wrappers[ws[i]].sticky.value) in pins
    {
      if i > 0 {
        assert ws[i] == ws[1..][i - 1];
      }
    }
  }

  /** A pin for ws's head put before pins already in ws's order stays in
      ws's order. */
  lemma ConsOrdered(ws: seq<WrapperId>, rest: seq<Action>, pins: seq<Action>)
    requires |ws| > 0
    requires forall i :: 0 <= i < |rest| ==> 0 < IndexOf(ws, rest[i].w)
    requires forall i, j :: 0 <= i < j < |rest| ==> IndexOf(ws, rest[i].w) < IndexOf(ws, rest[j].w)
    requires |pins| > 0 && pins[0].w == ws[0] && pins[1..] == rest
    ensures forall i, j :: 0 <= i < j < |pins| ==> IndexOf(ws, pins[i].w) < IndexOf(ws, pins[j].w)
  {
    assert IndexOf(ws, pins[0].w) == 0;
    forall i, j | 0 <= i < j < |pins|
      ensures IndexOf(ws, pins[i].w) < IndexOf(ws, pins[j].w)
    {
      assert pins[j] == rest[j - 1];
      if i > 0 {
        assert pins[i] == rest[i - 1];
      }
    }
  }

  /** Registry order carries over from ws's tail to ws, and the head comes
      before everything in the tail. */
  lemma PinsForOrder(ws: seq<WrapperId>, rest: seq<Action>)
    requires |ws| > 0 && forall i :: 0 <= i < |rest| ==> rest[i].w in ws[1..]
    requires NoDup(ws[1..]) ==>
      forall i, j :: 0 <= i < j < |rest| ==> IndexOf(ws[1..], rest[i].w) < IndexOf(ws[1..], rest[j].w)
    ensures NoDup(ws) ==> NoDup(ws[1..]) && ws[0] !in ws[1..]
    ensures NoDup(ws) ==> forall i :: 0 <= i < |rest| ==> 0 < IndexOf(ws, rest[i].w)
    ensures NoDup(ws) ==>
      forall i, j :: 0 <= i < j < |rest| ==> IndexOf(ws, rest[i].w) < IndexOf(ws, rest[j].w)
  {
    if NoDup(ws) {
      assert NoDup(ws[1..]) && ws[0] !in ws[1..] by {
        forall i | 1 <= i < |ws| ensures ws[0] != ws[i] { }
      }
      forall i | 0 <= i < |rest|
        ensures IndexOf(ws, rest[i].w) == IndexOf(ws[1..], rest[i].w) + 1
      {
        assert rest[i].w != ws[0];
      }
    }
  }

  /** The readings the registry loop takes: every wrapper of ws whose view is
      not pinned records its fresh reading. */
  function ReadLocations(s: State, ws: seq<WrapperId>, readings: WrapperId -> int): (r: State)
    requires WellFormed(s) && forall i :: 0 <= i < |ws| ==> ws[i] in s.wrappers
    ensures SameShape(s, r) && WellFormed(r) && r == s.(wrappers := r.wrappers)
    decreases |ws|
  {
    if |ws| == 0 then s
    else
      var w := ws[0];
      var located :=
        if Scanned(s, w) then s.(wrappers := s.wrappers[w := UpdateLocation(s.wrappers[w], readings(w))])
        else s;
      SameShapeKeepsValid(s, located);
      ReadLocations(located, ws[1..], readings)
  }

  /** Over a duplicate-free list each scanned wrapper gets exactly one fresh
      reading and every other wrapper is left alone. */
  lemma {:induction false} ReadLocationsUpdates(s: State, ws: seq<WrapperId>, readings: WrapperId -> int)
    requires WellFormed(s) && forall i :: 0 <= i < |ws| ==> ws[i] in s.wrappers
    requires NoDup(ws)
    ensures var r := ReadLocations(s, ws, readings);
      forall w :: w in s.wrappers ==>
        r.wrappers[w] == (if w in ws && Scanned(s, w) then UpdateLocation(s.wrappers[w], readings(w)) else s.wrappers[w])
    decreases |ws|
  {
    if |ws| > 0 {
      var w := ws[0];
      assert NoDup(ws[1..]);
      assert w !in ws[1..];
      var located :=
        if Scanned(s, w) then s.(wrappers := s.wrappers[w := UpdateLocation(s.wrappers[w], readings(w))])
        else s;
      SameShapeKeepsValid(s, located);
      ReadLocationsUpdates(located, ws[1..], readings);
      assert forall u :: u in s.wrappers ==> (Scanned(located, u) <==> Scanned(s, u));
    }
  }

  /** The target and the view it wraps are both there and movement is enabled. */
  predicate Engaged(s: State)
    requires WellFormed(s)
  {
    s.ready && s.target.Some? && s.wrappers[s.target.value].sticky.Some?
  }

  /** The target view's top lies inside its travel range [0, maxY]. */
  predicate TargetInBounds(s: State)
    requires WellFormed(s)
  {
    Engaged(s) ==> 0 <= s.views[s.wrappers[s.target.value].sticky.value].top <= s.maxY
  }

  /** Whether moving the stack by a non-zero legal delta follows the target:
      up while the target is above the last child's top edge, down while it
      is below. */
  function Warranted(legal: int, location: int, bound: int): bool {
    if legal < 0 then location < bound else location > bound
  }

  /** Offsetting the stack by a delta that keeps the target view's top in
      [0, maxY] keeps the target in bounds. */
  lemma OffsetKeepsInBounds(s: State, d: int)
    requires WellFormed(s) && Engaged(s)
    ensures WellFormed(OffsetChildren(s, d))
    ensures var v := s.wrappers[s.target.value].sticky.value;
      v in s.children && 0 <= s.views[v].top + d <= s.maxY ==> TargetInBounds(OffsetChildren(s, d))
  {
    SameShapeKeepsValid(s, OffsetChildren(s, d));
  }

  /** The movement step once the target has taken its reading: its
      movement delta, clamped so that the target view's top stays in
      [0, maxY], moves the whole stack when warranted. When nothing can move
      but the target scrolled down past the last child's top edge, its return
      home is queued. */
  function MoveByDelta(s: State, delta: int): (r: Step)
    requires WellFormed(s) && Engaged(s)
    ensures SameShape(s, r.state) && WellFormed(r.state)
    ensures r.state == s.(views := r.state.views)
    ensures
      var t := s.target.value;
      var v := s.wrappers[t].sticky.value;
      var legal := GetLegalDelta(s.views[v].top, 0, s.maxY, delta);
      var location := s.wrappers[t].location;
      var bound := GetBoundSticky(s, false);
      && (legal == 0 ==> r.state.views == s.views)
      && (legal == 0 && delta > 0 && location > bound ==> r.pending == [Unpin(t, v)])
      && (legal != 0 || delta <= 0 || location <= bound ==> r.pending == [])
      && (legal != 0 && Warranted(legal, location, bound) ==> r.state.views == OffsetChildren(s, legal).views)
      && (legal != 0 && !Warranted(legal, location, bound) ==> r.state.views == s.views)
    ensures AllFit(r.state, r.pending)
    ensures Valid(s) && TargetInBounds(s) ==> TargetInBounds(r.state)
  {
    var t := s.target.value;
    var targetSticky := s.wrappers[t].sticky.value;
    if delta == 0 then Step(s, [])
    else
      var legal := GetLegalDelta(s.views[targetSticky].top, 0, s.maxY, delta);
      if legal == 0 then
        if delta > 0 && s.wrappers[t].location > GetBoundSticky(s, false) then
          Step(s, [Unpin(t, targetSticky)])
        else
          Step(s, [])
      else if Warranted(legal, s.wrappers[t].location, GetBoundSticky(s, false)) then
        var moved := OffsetChildren(s, legal);
        SameShapeKeepsValid(s, moved);
        assert Valid(s) ==> targetSticky in s.children;
        OffsetKeepsInBounds(s, legal);
        Step(moved, [])
      else
        Step(s, [])
  }

  /** The movement step. The target takes a reading and the stack follows
      its movement as MoveByDelta says. */
  function MoveViews(s: State, readings: WrapperId -> int): (r: Step)
    requires WellFormed(s)
    ensures SameShape(s, r.state) && WellFormed(r.state)
    ensures r.state == s.(wrappers := r.state.wrappers, views := r.state.views)
    ensures !Engaged(s) ==> r == Step(s, [])
    ensures Engaged(s) ==>
      var t := s.target.value;
      var v := s.wrappers[t].sticky.value;
      var delta := readings(t) - s.wrappers[t].location;
      var legal := GetLegalDelta(s.views[v].top, 0, s.maxY, delta);
      var bound := GetBoundSticky(s, false);
      && r.state.wrappers == s.wrappers[t := UpdateLocation(s.wrappers[t], readings(t))]
      && (legal == 0 ==> r.state.views == s.views)
      && (legal == 0 && delta > 0 && readings(t) > bound ==> r.pending == [Unpin(t, v)])
      && (legal != 0 || delta <= 0 || readings(t) <= bound ==> r.pending == [])
      && (legal != 0 && Warranted(legal, readings(t), bound) ==> r.state.views == OffsetChildren(s, legal).views)
      && (legal != 0 && !Warranted(legal, readings(t), bound) ==> r.state.views == s.views)
    ensures AllFit(r.state, r.pending)
    ensures Valid(s) && TargetInBounds(s) ==> TargetInBounds(r.state)
  {
    if !Engaged(s) then Step(s, [])
    else
      var t := s.target.value;
      var target := UpdateLocation(s.wrappers[t], readings(t));
      var located := s.(wrappers := s.wrappers[t := target]);
      SameShapeKeepsValid(s, located);
      LocatedSameGeometry(s, located, readings(t));
      MoveByDelta(located, LocationDelta(target))
  }

  /** Taking the target's reading changes nothing the stack geometry
      depends on. */
  lemma LocatedSameGeometry(s: State, located: State, reading: int)
    requires WellFormed(s) && Engaged(s)
    requires located == s.(wrappers := s.wrappers[s.target.value := UpdateLocation(s.wrappers[s.target.value], reading)])
    ensures WellFormed(located) && Engaged(located)
    ensures GetBoundSticky(located, false) == GetBoundSticky(s, false)
    ensures TargetInBounds(located) == TargetInBounds(s)
    ensures forall d :: OffsetChildren(located, d).views == OffsetChildren(s, d).views
  {
    SameShapeKeepsValid(s, located);
  }

  /** With no scroll since the last tick, the movement step changes no
      geometry and queues nothing. */
  lemma MoveViewsSettles(s: State, readings: WrapperId -> int)
    requires WellFormed(s)
    ensures
      var once := MoveViews(s, readings);
      var twice := MoveViews(once.state, readings);
      twice.state.views == once.state.views && twice.pending == []
  {
  }

  /** The pinned stack moves as one block: the distance between any two
      children never changes, and the target view either stays put or lands
      on its own top plus the scroll delta, clamped into [0, maxY]. */
  lemma MoveViewsRigid(s: State, readings: WrapperId -> int)
    requires Valid(s) && Engaged(s)
    ensures
      var r := MoveViews(s, readings).state;
      var t := s.target.value;
      var v := s.wrappers[t].sticky.value;
      var delta := readings(t) - s.wrappers[t].location;
      && (r.views[v].top == s.views[v].top
          || (delta != 0 && r.views[v].top == Clamp(s.views[v].top + delta, 0, s.maxY)))
      && forall i, j :: 0 <= i < |s.children| && 0 <= j < |s.children| ==>
           r.views[s.children[i]].top - r.views[s.children[j]].top
           == s.views[s.children[i]].top - s.views[s.children[j]].top
  {
    var r := MoveViews(s, readings).state;
    var t := s.target.value;
    var v := s.wrappers[t].sticky.value;
    assert v == Last(s.children);
    assert v in s.children;
  }

  /** One scroll tick, given the container's screen y and this tick's screen
      reading for every wrapper. */
  function PerformSticky(s: State, screenY: int, readings: WrapperId -> int): (r: State)
    requires WellFormed(s)
    ensures |s.registry| == 0 ==> r == s
    ensures WellFormed(r)
    ensures r.registry == s.registry && r.views.Keys == s.views.Keys
  {
    if |s.registry| == 0 then s
    else
      var located := s.(screenY := screenY);
      // the registry loop: readings for unpinned views, pins for those at the edge
      var pins := PinsFor(located, located.registry, readings);
      var read := ReadLocations(located, located.registry, readings);
      var moved := MoveViews(read, readings);
      var queue := pins + moved.pending;
      assert AllFit(moved.state, queue);
      ApplyAll(moved.state, queue)
  }

  /** The movement step queues at most the return of the target's view,
      which is pinned. */
  lemma MoveViewsQueue(s: State, readings: WrapperId -> int)
    requires Valid(s)
    ensures var moved := MoveViews(s, readings);
      && |moved.pending| <= 1
      && forall a :: a in moved.pending ==>
           a.Unpin? && Fits(moved.state, a) && moved.state.views[a.v].parent == Overlay
  {
  }

  /** The queue a tick builds can be replayed safely. */
  lemma TickQueueOk(located: State, pins: seq<Action>, moved: Step, readings: WrapperId -> int)
    requires Valid(located) && Valid(moved.state) && SameShape(located, moved.state)
    requires pins == PinsFor(located, located.registry, readings)
    requires |moved.pending| <= 1
    requires forall a :: a in moved.pending ==>
      a.Unpin? && Fits(moved.state, a) && moved.state.views[a.v].parent == Overlay
    ensures AllFit(moved.state, pins + moved.pending) && PendingOk(moved.state, pins + moved.pending)
  {
    var queue := pins + moved.pending;
    forall i | 0 <= i < |pins|
      ensures Fits(moved.state, pins[i]) && moved.state.views[pins[i].v].parent != Overlay
    {
      assert Fits(located, pins[i]) && Pinnable(located, pins[i].w, readings);
    }
    forall i | 0 <= i < |queue|
      ensures Fits(moved.state, queue[i])
    {
      if i >= |pins| {
        assert queue[i] in moved.pending;
      }
    }
    forall i, j | 0 <= i < j < |queue|
      ensures queue[i].v != queue[j].v
    {
      if j < |pins| {
        assert pins[i].w != pins[j].w;
        assert Fits(located, pins[i]) && Fits(located, pins[j]);
      } else {
        assert queue[j] in moved.pending;
        assert i < |pins|;
      }
    }
  }

  /** A tick is the replay, after the movement step, of the pins the
      registry loop queued followed by what the movement step queued; that
      queue fits the moved state and can be replayed safely. */
  lemma TickReplays(s: State, screenY: int, readings: WrapperId -> int)
    requires Valid(s) && |s.registry| > 0
    ensures
      var located := s.(screenY := screenY);
      var moved := MoveViews(ReadLocations(located, located.registry, readings), readings);
      var queue := PinsFor(located, located.registry, readings) + moved.pending;
      && Valid(moved.state) && AllFit(moved.state, queue) && PendingOk(moved.state, queue)
      && PerformSticky(s, screenY, readings) == ApplyAll(moved.state, queue)
  {
    var located := s.(screenY := screenY);
    SameShapeKeepsValid(s, located);
    var read := ReadLocations(located, located.registry, readings);
    SameShapeKeepsValid(located, read);
    var moved := MoveViews(read, readings);
    SameShapeKeepsValid(read, moved.state);
    MoveViewsQueue(read, readings);
    TickQueueOk(located, PinsFor(located, located.registry, readings), moved, readings);
  }

  /** The queue a tick builds has the shape of a tick's queue. */
  lemma TickQueueFacts(s: State, screenY: int, readings: WrapperId -> int)
    requires Valid(s) && |s.registry| > 0
    ensures
      var located := s.(screenY := screenY);
      var moved := MoveViews(ReadLocations(located, located.registry, readings), readings);
      TickQueue(moved.state, PinsFor(located, located.registry, readings), moved.pending)
  {
    TickReplays(s, screenY, readings);
    var located := s.(screenY := screenY);
    var read := ReadLocations(located, located.registry, readings);
    MoveViewsQueue(read, readings);
    var moved := MoveViews(read, readings);
    if moved.pending != [] {
      assert moved.pending[0] in moved.pending;
    }
  }

  /** A tick keeps the invariant. */
  lemma PerformStickyKeepsValid(s: State, screenY: int, readings: WrapperId -> int)
    requires Valid(s)
    ensures Valid(PerformSticky(s, screenY, readings))
  {
    if |s.registry| > 0 {
      TickReplays(s, screenY, readings);
      var located := s.(screenY := screenY);
      var moved := MoveViews(ReadLocations(located, located.registry, readings), readings);
      ApplyAllKeepsValid(moved.state, PinsFor(located, located.registry, readings) + moved.pending);
    }
  }

  /** In a replay of pins followed by more actions, every queued action
      puts its view where it says. */
  lemma ReplayPlaces(s: State, pins: seq<Action>, pending: seq<Action>, a: Action)
    requires WellFormed(s) && AllFit(s, pins + pending)
    requires forall i, j :: 0 <= i < j < |pins + pending| ==> (pins + pending)[i].v != (pins + pending)[j].v
    requires (a in pins || a in pending) && Fits(s, a)
    ensures ApplyAll(s, pins + pending).views[a.v].parent == (if a.Pin? then Overlay else Host(a.w))
  {
    var queue := pins + pending;
    ApplyAllPlaces(s, queue);
    if a in pins {
      var k :| 0 <= k < |pins| && pins[k] == a;
      assert queue[k] == a;
    } else {
      var k :| 0 <= k < |pending| && pending[k] == a;
      assert queue[|pins| + k] == a;
    }
  }

  /** A tick pins every registered view that is not pinned yet and whose
      reading reached the pin edge. */
  lemma PerformStickyPins(s: State, screenY: int, readings: WrapperId -> int, w: WrapperId)
    requires Valid(s) && w in s.registry
    requires Pinnable(s.(screenY := screenY), w, readings)
    ensures PerformSticky(s, screenY, readings).views[s.wrappers[w].sticky.value].parent == Overlay
  {
    TickReplays(s, screenY, readings);
    var located := s.(screenY := screenY);
    var moved := MoveViews(ReadLocations(located, located.registry, readings), readings);
    var pins := PinsFor(located, located.registry, readings);
    var i :| 0 <= i < |s.registry| && s.registry[i] == w;
    var a := Pin(w, s.wrappers[w].sticky.value);
    assert a in pins;
    ReplayPlaces(moved.state, pins, moved.pending, a);
  }

  /** When the movement step queues the target's return, the tick ends with
      the target's view back in its wrapper. */
  lemma PerformStickyReturnsTarget(s: State, screenY: int, readings: WrapperId -> int)
    requires Valid(s) && |s.registry| > 0
    ensures
      var located := s.(screenY := screenY);
      var moved := MoveViews(ReadLocations(located, located.registry, readings), readings);
      forall a :: a in moved.pending ==>
        a.Unpin? && PerformSticky(s, screenY, readings).views[a.v].parent == Host(a.w)
  {
    TickReplays(s, screenY, readings);
    var located := s.(screenY := screenY);
    var read := ReadLocations(located, located.registry, readings);
    var moved := MoveViews(read, readings);
    MoveViewsQueue(read, readings);
    var pins := PinsFor(located, located.registry, readings);
    forall a | a in moved.pending
      ensures a.Unpin? && ApplyAll(moved.state, pins + moved.pending).views[a.v].parent == Host(a.w)
    {
      ReplayPlaces(moved.state, pins, moved.pending, a);
    }
  }

  /** The views a tick pins join the bottom of the stack in registry order,
      and the last of them makes its wrapper the target; a return queued by
      the movement step takes the target's view out of the stack first. */
  lemma PerformStickyStacks(s: State, screenY: int, readings: WrapperId -> int)
    requires Valid(s) && |s.registry| > 0
    ensures
      var located := s.(screenY := screenY);
      var moved := MoveViews(ReadLocations(located, located.registry, readings), readings);
      var pins := PinsFor(located, located.registry, readings);
      var r := PerformSticky(s, screenY, readings);
      && (moved.pending == [] ==> r.children == s.children + QueuedViews(pins))
      && (moved.pending != [] ==> r.children == Remove(s.children, moved.pending[0].v) + QueuedViews(pins))
      && (|pins| > 0 ==> r.target == Some(Last(pins).w))
  {
    TickReplays(s, screenY, readings);
    TickQueueFacts(s, screenY, readings);
    var located := s.(screenY := screenY);
    var moved := MoveViews(ReadLocations(located, located.registry, readings), readings);
    ReplayStacks(moved.state, PinsFor(located, located.registry, readings), moved.pending);
  }
}
