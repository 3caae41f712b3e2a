/** The action sheet's view controller: the state the sheet changes in
    place (item frames, highlight flags, its own frame) and the effects its
    touch handling issues. */
module ActionSheets {
  import opened Rects
  import opened Sheet

  /** The states a pan gesture recognizer reports. */
  datatype PanState = Possible | Began | Changed | Ended | Cancelled | Failed

  /** The item rectangles in the sheet's coordinates: each item's frame
      moved by the origin of its group's content view (the first
      `normalCount` items are in the normal group). */
  function HitRectsOf(frames: seq<Rect>, normalCount: nat, normalContent: Rect, cancelContent: Rect): (r: seq<Rect>)
    ensures |r| == |frames|
  {
    seq(|frames|, k requires 0 <= k < |frames| =>
      var content := if k < normalCount then normalContent else cancelContent;
      frames[k].Offset(content.x, content.y))
  }

  /** A point of the sheet hits item `k` exactly when, converted into the
      coordinates of the item's content view, it lies in the item's frame. */
  lemma HitTestInContentView(frames: seq<Rect>, normalCount: nat, normalContent: Rect, cancelContent: Rect,
                             k: nat, p: Point)
    requires k < |frames|
    ensures var content := if k < normalCount then normalContent else cancelContent;
      HitRectsOf(frames, normalCount, normalContent, cancelContent)[k].Contains(p) <==>
      frames[k].Contains(Point(p.x - content.x, p.y - content.y))
  {
  }

  /** Item frames laid out group by group give the sheet's item
      rectangles. */
  lemma LaidOutHitRects(frames: seq<Rect>, normalCount: nat, cancelCount: nat, width: real)
    requires |frames| == normalCount + cancelCount
    requires forall k :: 0 <= k < normalCount ==> frames[k] == Sheet.ItemFrame(k, width)
    requires forall k :: 0 <= k < cancelCount ==> frames[normalCount + k] == Sheet.ItemFrame(k, width)
    ensures HitRectsOf(frames, normalCount, NormalContentFrame(normalCount, width),
                       CancelContentFrame(normalCount, cancelCount, width))
            == SheetItemRects(normalCount, cancelCount, width)
  {
  }

  class ActionSheet {
    const normalActions: seq<Action>
    const cancelActions: seq<Action>
    /** Whether each item (normal items first) is shown highlighted. */
    const active: array<bool>
    /** Each item's frame inside its group's content view. */
    const itemFrames: array<Rect>
    var normalContentFrame: Rect
    var cancelContentFrame: Rect
    /** The sheet's frame in its container (its final, animated value). */
    var frame: Rect
    /** Whether the sheet's view is in the container's view hierarchy. */
    var inHierarchy: bool
    /** The effects issued so far, oldest first. */
    var trace: seq<Effect>

    ghost predicate Valid()
      reads this
    {
      active.Length == itemFrames.Length == |normalActions| + |cancelActions|
    }

    /** The items as the pan gesture visits them: normal, then cancel. */
    function Items(): seq<Action> {
      normalActions + cancelActions
    }

    /** The items' rectangles in the sheet's coordinates. */
    function HitRects(): (r: seq<Rect>)
      reads this`normalContentFrame, this`cancelContentFrame, itemFrames
    {
      HitRectsOf(itemFrames[..], |normalActions|, normalContentFrame, cancelContentFrame)
    }

    /** Splits the actions into the two groups; no item is highlighted,
        laid out or on screen yet. */
    constructor (actions: seq<Action>)
      ensures Valid() && fresh(active) && fresh(itemFrames)
      ensures normalActions == Filter(actions, Normal) && cancelActions == Filter(actions, Cancel)
      ensures |Items()| == |actions|
      ensures forall k :: 0 <= k < active.Length ==> !active[k] && itemFrames[k] == Zero
      ensures normalContentFrame == Zero && cancelContentFrame == Zero && frame == Zero
      ensures !inHierarchy && trace == []
    {
      normalActions := Filter(actions, Normal);
      cancelActions := Filter(actions, Cancel);
      PartitionIsComplete(actions);
      var n := |Filter(actions, Normal)| + |Filter(actions, Cancel)|;
      active := new bool[n](_ => false);
      itemFrames := new Rect[n](_ => Zero);
      normalContentFrame, cancelContentFrame, frame := Zero, Zero, Zero;
      inHierarchy := false;
      trace := [];
    }

    /** Lays out both groups for a sheet `width` points wide: `width` is
        the sheet's own width, which `Show` makes the container's width
        minus 20. (The cancel group's position is the corrected one: see
        CancelContentFrame.) */
    method LayoutViews(width: real)
      requires Valid()
      modifies this`normalContentFrame, this`cancelContentFrame, itemFrames
      ensures Valid()
      ensures normalContentFrame == NormalContentFrame(|normalActions|, width)
      ensures cancelContentFrame == CancelContentFrame(|normalActions|, |cancelActions|, width)
      ensures forall k :: 0 <= k < |normalActions| ==> itemFrames[k] == Sheet.ItemFrame(k, width)
      ensures forall k :: 0 <= k < |cancelActions| ==> itemFrames[|normalActions| + k] == Sheet.ItemFrame(k, width)
      ensures HitRects() == SheetItemRects(|normalActions|, |cancelActions|, width)
    {
      var n := |normalActions|;
      normalContentFrame := NormalContentFrame(n, width);
      cancelContentFrame := CancelContentFrame(n, |cancelActions|, width);
      for index := 0 to n
        invariant normalContentFrame == NormalContentFrame(n, width)
        invariant cancelContentFrame == CancelContentFrame(n, |cancelActions|, width)
        invariant forall k :: 0 <= k < index ==> itemFrames[k] == Sheet.ItemFrame(k, width)
      {
        itemFrames[index] := Rect(0.0, index as real * (ItemHeight + Hairline), width, ItemHeight);
      }
      for index := 0 to |cancelActions|
        invariant normalContentFrame == NormalContentFrame(n, width)
        invariant cancelContentFrame == CancelContentFrame(n, |cancelActions|, width)
        invariant forall k :: 0 <= k < n ==> itemFrames[k] == Sheet.ItemFrame(k, width)
        invariant forall k :: 0 <= k < index ==> itemFrames[n + k] == Sheet.ItemFrame(k, width)
      {
        itemFrames[n + index] := Rect(0.0, index as real * (ItemHeight + Hairline), width, ItemHeight);
      }
      LaidOutHitRects(itemFrames[..], n, |cancelActions|, width);
    }

    /** Adds the sheet to a container of the given size and slides it up
        from below the container's bottom edge; `frame` is the frame the
        animation ends at. */
    method Show(containerWidth: real, containerHeight: real)
      modifies this`frame, this`inHierarchy
      ensures var height := ExpectHeight(|normalActions|, |cancelActions|);
        frame == ShowFrames(containerWidth, containerHeight, height).1
      ensures frame.MaxY() == containerHeight - VerticalOffset
      ensures inHierarchy
    {
      var height := ExpectHeight(|normalActions|, |cancelActions|);
      var expireY := containerHeight - VerticalOffset - height;
      frame := Rect(HorizontalOffset, containerHeight, containerWidth - 2.0 * HorizontalOffset, height);
      inHierarchy := true;
      frame := frame.(y := expireY);
    }

    /** Slides the sheet below the bottom of its superview and removes it;
        does nothing when the sheet has no superview. */
    method Hide(superviewHeight: real)
      modifies this`frame, this`inHierarchy
      ensures old(inHierarchy) ==> frame == old(frame).(y := superviewHeight) && !inHierarchy
      ensures !old(inHierarchy) ==> frame == old(frame) && !inHierarchy
    {
      if inHierarchy {
        frame := frame.(y := superviewHeight);
        inHierarchy := false;
      }
    }

    /** A finger goes down on item `k`: it is highlighted. */
    method TouchDown(k: nat)
      requires Valid() && k < active.Length
      modifies active
      ensures active[..] == old(active[..])[k := true]
    {
      active[k] := true;
    }

    /** A tap on item `k`: its action runs and it turns inactive, then the
        sheet asks to be dismissed. */
    method TapItem(k: nat)
      requires Valid() && k < active.Length
      modifies this`trace, active
      ensures trace == old(trace) + [RunAction(Items()[k].callback), RequestDismiss]
      ensures active[..] == old(active[..])[k := false]
    {
      trace := trace + [RunAction(Items()[k].callback)];
      active[k] := false;
      trace := trace + [RequestDismiss];
    }

    /** The pan gesture handler. While the finger moves, exactly the items
        under it are highlighted; when it is lifted, every item under it
        runs its action, turns inactive and asks for dismissal. */
    method ListenFor(state: PanState, location: Point)
      requires Valid()
      modifies this`trace, active
      ensures state == Began || state == Changed ==>
        trace == old(trace) &&
        forall k :: 0 <= k < active.Length ==> active[k] == HitRects()[k].Contains(location)
      ensures state == Ended ==>
        trace == old(trace) + ReleaseEffects(Items(), HitRects(), location) &&
        forall k :: 0 <= k < active.Length ==> active[k] == (old(active[k]) && !HitRects()[k].Contains(location))
      ensures state != Began && state != Changed && state != Ended ==>
        trace == old(trace) && active[..] == old(active[..])
    {
      match state
      case Began | Changed => HighlightUnder(location);
      case Ended => ReleaseAt(location);
      case _ =>
    }

    /** The began/changed branch of the pan handler. */
    method HighlightUnder(location: Point)
      requires Valid()
      modifies active
      ensures forall k :: 0 <= k < active.Length ==> active[k] == HitRects()[k].Contains(location)
    {
      var rects := HitRects();
      for k := 0 to active.Length
        invariant forall i :: 0 <= i < k ==> active[i] == rects[i].Contains(location)
      {
        if rects[k].Contains(location) {
          active[k] := true;
        } else {
          active[k] := false;
        }
      }
    }

    /** The ended branch of the pan handler. */
    method ReleaseAt(location: Point)
      requires Valid()
      modifies this`trace, active
      ensures trace == old(trace) + ReleaseEffects(Items(), HitRects(), location)
      ensures forall k :: 0 <= k < active.Length ==> active[k] == (old(active[k]) && !HitRects()[k].Contains(location))
    {
      var items := Items();
      var rects := HitRects();
      for k := 0 to active.Length
        invariant trace == old(trace) + ReleaseEffects(items[..k], rects[..k], location)
        invariant forall i :: 0 <= i < k ==> active[i] == (old(active[i]) && !rects[i].Contains(location))
        invariant forall i :: k <= i < active.Length ==> active[i] == old(active[i])
      {
        ReleaseEffectsStep(items, rects, location, k);
        if rects[k].Contains(location) {
          // the item's own action, which also switches it to inactive
          trace := trace + [RunAction(items[k].callback)];
          active[k] := false;
          // the sheet's dismiss callback
          trace := trace + [RequestDismiss];
        }
      }
      assert items[..active.Length] == items && rects[..active.Length] == rects;
    }
  }

  /** Among non-overlapping rectangles, the one containing `p` is the
      only one that does. */
  lemma OnlyHit(rects: seq<Rect>, p: Point, j: nat)
    requires Disjoint(rects) && j < |rects| && rects[j].Contains(p)
    ensures forall k :: 0 <= k < |rects| ==> (rects[k].Contains(p) <==> k == j)
  {
  }

  /** On a laid-out sheet, a point inside item `j` is inside no other
      item, and releasing there fires item `j` alone. */
  lemma LaidOutRelease(items: seq<Action>, rects: seq<Rect>, normalCount: nat, cancelCount: nat, width: real,
                       p: Point, j: nat)
    requires rects == SheetItemRects(normalCount, cancelCount, width)
    requires |items| == normalCount + cancelCount
    requires j < normalCount + cancelCount && rects[j].Contains(p)
    ensures forall k :: 0 <= k < |rects| ==> (rects[k].Contains(p) <==> k == j)
    ensures ReleaseEffects(items, rects, p) == [RunAction(items[j].callback), RequestDismiss]
  {
    SheetItemsDisjoint(normalCount, cancelCount, width);
    OnlyHit(rects, p, j);
    ReleaseOverOneItem(items, rects, p, j);
  }

  /** Dragging from one item to another and lifting the finger there, on
      a laid-out sheet: once the finger is over `j` only `j` is
      highlighted, and the release runs that item's action alone and asks
      once for dismissal. */
  method DragAndRelease(sheet: ActionSheet, width: real, start: Point, release: Point, j: nat)
    returns (whileDragging: seq<bool>)
    requires sheet.Valid()
    requires sheet.HitRects() == SheetItemRects(|sheet.normalActions|, |sheet.cancelActions|, width)
    requires j < sheet.active.Length && sheet.HitRects()[j].Contains(release)
    modifies sheet`trace, sheet.active
    ensures forall k :: 0 <= k < |whileDragging| ==> whileDragging[k] == (k == j)
    ensures |whileDragging| == sheet.active.Length
    ensures forall k :: 0 <= k < sheet.active.Length ==> !sheet.active[k]
    ensures sheet.trace == old(sheet.trace) + [RunAction(sheet.Items()[j].callback), RequestDismiss]
  {
    LaidOutRelease(sheet.Items(), sheet.HitRects(), |sheet.normalActions|, |sheet.cancelActions|, width, release, j);
    sheet.ListenFor(Began, start);
    sheet.ListenFor(Changed, release);
    whileDragging := sheet.active[..];
    sheet.ListenFor(Ended, release);
  }
}
