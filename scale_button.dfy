/** The button that grows while a finger is on it (the bubble menu's item
    buttons use it with a scale of 1.5). Touch events set an "activated"
    flag; only a change of the flag starts a spring animation, towards the
    enlarged transform or back to the identity. */
module ScaleButton {
  import opened Wrappers

  /** The touch events a control reports. */
  datatype ControlEvent =
    | TouchDown | TouchDownRepeat | TouchDragInside | TouchDragOutside
    | TouchDragEnter | TouchDragExit | TouchUpInside | TouchUpOutside | TouchCancel

  /** The flag value the button's handlers assign for an event: touch-down
      and drag-inside activate, touch-up-inside and drag-outside
      deactivate, the other events have no handler. */
  function Assigned(e: ControlEvent): (v: Option<bool>)
    ensures v == Some(true) <==> e == TouchDown || e == TouchDragInside
    ensures v == Some(false) <==> e == TouchUpInside || e == TouchDragOutside
  {
    match e
    case TouchDown | TouchDragInside => Some(true)
    case TouchUpInside | TouchDragOutside => Some(false)
    case _ => None
  }

  /** The flag after one event. */
  function Step(activated: bool, e: ControlEvent): (r: bool)
    // the flag keeps its value unless a handler assigns one, and then
    // takes the assigned value
    ensures r == activated || Assigned(e) == Some(r)
    ensures Assigned(e).Some? ==> r == Assigned(e).value
  {
    match Assigned(e)
    case Some(v) => v
    case None => activated
  }

  /** The flag after a sequence of events. */
  function Final(start: bool, events: seq<ControlEvent>): (r: bool)
    ensures events == [] ==> r == start
    // a last event with a handler decides the flag
    ensures events != [] && Assigned(events[|events| - 1]).Some? ==> r == Assigned(events[|events| - 1]).value
  {
    if events == [] then start
    else Step(Final(start, events[..|events| - 1]), events[|events| - 1])
  }

  /** The animations a sequence of events starts, in order: `true` for one
      towards the enlarged transform, `false` for one back to identity. */
  function Animations(start: bool, events: seq<ControlEvent>): (a: seq<bool>)
    // no event starts more than one animation
    ensures |a| <= |events|
  {
    if events == [] then []
    else
      var before := Final(start, events[..|events| - 1]);
      var after := Step(before, events[|events| - 1]);
      Animations(start, events[..|events| - 1]) + (if after != before then [after] else [])
  }

  /** One more event: the flag takes one step, and an animation is added
      exactly when that step changes the flag. */
  lemma OneMoreEvent(start: bool, events: seq<ControlEvent>, e: ControlEvent)
    ensures Final(start, events + [e]) == Step(Final(start, events), e)
    ensures var before := Final(start, events);
      Animations(start, events + [e]) ==
        Animations(start, events) + (if Step(before, e) != before then [Step(before, e)] else [])
  {
    assert (events + [e])[..|events|] == events;
  }

  /** The last event that has a handler decides the flag. */
  lemma {:induction false} LastHandledEventDecides(start: bool, events: seq<ControlEvent>, i: nat)
    requires i < |events| && Assigned(events[i]).Some?
    requires forall j :: i < j < |events| ==> Assigned(events[j]).None?
    ensures Final(start, events) == Assigned(events[i]).value
  {
    var last := |events| - 1;
    if i < last {
      var prefix := events[..last];
      assert prefix[i] == events[i];
      assert forall j :: i < j < |prefix| ==> prefix[j] == events[j];
      LastHandledEventDecides(start, prefix, i);
    }
  }

  /** Events without handlers leave the flag at its start value. */
  lemma {:induction false} UnhandledEventsKeepStart(start: bool, events: seq<ControlEvent>)
    requires forall i :: 0 <= i < |events| ==> Assigned(events[i]).None?
    ensures Final(start, events) == start
    ensures Animations(start, events) == []
  {
    if events != [] {
      var prefix := events[..|events| - 1];
      assert forall i :: 0 <= i < |prefix| ==> prefix[i] == events[i];
      UnhandledEventsKeepStart(start, prefix);
    }
  }

  /** Every animation undoes the previous one, the first one leaves the
      initial state, and the last one goes to the current state; so the
      transform being animated to always matches the flag. */
  lemma {:induction false} AnimationsAlternate(start: bool, events: seq<ControlEvent>)
    ensures var a := Animations(start, events);
      (a == [] ==> Final(start, events) == start) &&
      (a != [] ==> a[0] != start && a[|a| - 1] == Final(start, events)) &&
      (forall i :: 0 <= i < |a| - 1 ==> a[i] != a[i + 1])
  {
    if events != [] {
      var prefix := events[..|events| - 1];
      AnimationsAlternate(start, prefix);
      var before := Final(start, prefix);
      var after := Step(before, events[|events| - 1]);
      if after != before {
        AlternationExtends(Animations(start, prefix), start, after);
      }
    }
  }

  /** Appending a value that differs from the last one (or from `start`
      when there is none) keeps a sequence alternating. */
  lemma AlternationExtends(a: seq<bool>, start: bool, v: bool)
    requires a != [] ==> a[0] != start
    requires forall i :: 0 <= i < |a| - 1 ==> a[i] != a[i + 1]
    requires if a == [] then v != start else a[|a| - 1] != v
    ensures var b := a + [v];
      b[0] != start && b[|b| - 1] == v && forall i :: 0 <= i < |b| - 1 ==> b[i] != b[i + 1]
  {
  }

  /** A repeated event changes nothing and starts no animation. */
  lemma RepeatedEventIsIgnored(start: bool, events: seq<ControlEvent>, e: ControlEvent)
    ensures Final(start, events + [e, e]) == Final(start, events + [e])
    ensures Animations(start, events + [e, e]) == Animations(start, events + [e])
  {
    assert (events + [e, e])[..|events| + 1] == events + [e];
    assert (events + [e])[..|events|] == events;
  }

  class ScaleForActivatedButton {
    const scale: real
    var isActivated: bool
    /** The spring animations started so far, oldest first. */
    var animations: seq<bool>
    /** The touch events delivered so far. */
    ghost var events: seq<ControlEvent>

    ghost predicate Valid()
      reads this
    {
      isActivated == Final(false, events) && animations == Animations(false, events)
    }

    constructor (scale: real)
      ensures Valid() && this.scale == scale && events == []
      ensures !isActivated && animations == []
    {
      this.scale := scale;
      isActivated := false;
      animations := [];
      events := [];
    }

    /** The scale of the transform the button is animating towards, or
        rests at: the enlarged one exactly while it is activated. */
    function TargetScale(): (s: real)
      reads this
      requires Valid()
      ensures s == if isActivated then scale else 1.0
    {
      AnimationsAlternate(false, events);
      if animations != [] && animations[|animations| - 1] then scale else 1.0
    }

    /** Assigning the flag; an animation starts only when it changes. */
    method SetActivated(value: bool)
      modifies this`isActivated, this`animations
      ensures isActivated == value
      ensures animations == old(animations) + (if value != old(isActivated) then [value] else [])
    {
      var oldValue := isActivated;
      isActivated := value;
      if oldValue != isActivated {
        animations := animations + [isActivated];
      }
    }

    method SwitchToNormal()
      modifies this`isActivated, this`animations
      ensures !isActivated
      ensures animations == old(animations) + (if old(isActivated) then [false] else [])
    {
      SetActivated(false);
    }

    method SwitchToActivated()
      modifies this`isActivated, this`animations
      ensures isActivated
      ensures animations == old(animations) + (if !old(isActivated) then [true] else [])
    {
      SetActivated(true);
    }

    /** Delivers a touch event to the handlers registered for it. */
    method Handle(e: ControlEvent)
      requires Valid()
      modifies this
      ensures Valid() && events == old(events) + [e]
      ensures isActivated == Step(old(isActivated), e)
    {
      OneMoreEvent(false, events, e);
      match e {
        case TouchDown | TouchDragInside => SwitchToActivated();
        case TouchUpInside | TouchDragOutside => SwitchToNormal();
        case _ =>
      }
      events := events + [e];
    }
  }
}
