/** The bubble menu that floats above a chat bubble: a row of quick-action
    items on a 46-point background band, with a small pointer under it.
    Placement is computed by static functions on rectangles; the
    controller assigns the resulting frames when its view is loaded. */
module Bubble {
  import opened Wrappers
  import opened Rects

  /** The side of the conversation the chat bubble is on. */
  datatype Direction = Left | Right

  /** A quick-action item; its callback is identified by `action`. */
  datatype Item = Item(title: Option<string>, image: Option<nat>, action: nat)

  /** A chat bubble view: its frame in its superview and, when it has a
      superview, that frame converted to the key window's coordinates
      (the conversion itself is done by the toolkit). */
  datatype BubbleView = BubbleView(frame: Rect, frameInWindow: Option<Rect>)

  const MenuViewHeight: real := 60.0
  const MenuBackgroundViewHeight: real := 46.0
  const LittleBubbleWidth: real := 17.0
  const LittleBubbleHeight: real := 22.0
  const MenuItemSide: real := 30.0
  const MenuVerticalOffset: real := 4.0
  const MenuHorizontalOffset: real := 20.0

  /** Spacing between items: 20 points on a 414-point-wide screen, scaled
      down proportionally on narrower screens and never above 20. The
      program computes it once, from the screen width at its first use,
      and keeps that value; the layout functions below therefore take the
      spacing as a parameter of its own. */
  function MenuItemOffset(screenWidth: real): (offset: real)
    ensures offset <= 20.0
    ensures screenWidth > 0.0 ==> offset > 0.0
    ensures offset == 20.0 <==> screenWidth >= 414.0
  {
    Min(20.0 * (screenWidth / 414.0), 20.0)
  }

  /** Width of `count` items with a spacing before, between and after them. */
  function UnclampedWidth(count: nat, offset: real): real {
    count as real * MenuItemSide + (count as real + 1.0) * offset
  }

  /** The menu width: the items' width, but never narrower than the
      background band is high (so that its rounded ends fit). */
  function ExpectWidth(count: nat, offset: real): (w: real)
    ensures w >= MenuBackgroundViewHeight && w >= UnclampedWidth(count, offset)
    ensures w == MenuBackgroundViewHeight || w == UnclampedWidth(count, offset)
  {
    var width := UnclampedWidth(count, offset);
    if width > MenuBackgroundViewHeight then width else MenuBackgroundViewHeight
  }

  /** Where the menu would go before any clamping: for a bubble on the
      left its right end overhangs the bubble's right edge by 20 points,
      for a bubble on the right it starts 20 points left of the bubble. */
  function PreferredX(direction: Direction, bubbleFrame: Rect, expectWidth: real): (x: real)
    ensures direction == Left ==> x + expectWidth == bubbleFrame.MaxX() + MenuHorizontalOffset
    ensures direction == Right ==> x + MenuHorizontalOffset == bubbleFrame.x
  {
    match direction
    case Left => bubbleFrame.MaxX() - (expectWidth - MenuHorizontalOffset)
    case Right => bubbleFrame.x - MenuHorizontalOffset
  }

  /** The menu frame above a bubble whose frame is given in screen
      coordinates. */
  function CalcFrame(direction: Direction, bubbleFrame: Rect, expectWidth: real, screenWidth: real): (r: Rect)
    ensures r.y == bubbleFrame.y - MenuVerticalOffset - MenuBackgroundViewHeight
    ensures r.width == expectWidth && r.height == MenuViewHeight
    // a left menu never leaves the screen on the right, and starts no
    // further left than the bubble whenever there is room for that
    ensures direction == Left ==> r.x <= screenWidth - expectWidth
    ensures direction == Left && screenWidth - expectWidth >= bubbleFrame.x ==> r.x >= bubbleFrame.x
    // a right menu never leaves the screen on the left, and ends no
    // further right than the bubble whenever it is not wider than that
    ensures direction == Right ==> r.x >= 0.0
    ensures direction == Right && expectWidth <= bubbleFrame.MaxX() ==> r.x + expectWidth <= bubbleFrame.MaxX()
    // the preferred position is kept whenever it violates no clamp
    ensures var p := PreferredX(direction, bubbleFrame, expectWidth);
      direction == Left && bubbleFrame.x <= p <= screenWidth - expectWidth ==> r.x == p
    ensures var p := PreferredX(direction, bubbleFrame, expectWidth);
      direction == Right && 0.0 <= p && p + expectWidth <= bubbleFrame.MaxX() ==> r.x == p
    // a clamp moves the menu to the edge that it would otherwise cross
    ensures var p := PreferredX(direction, bubbleFrame, expectWidth);
      direction == Left ==> r.x == p || r.x == bubbleFrame.x || r.x == screenWidth - expectWidth
    ensures var p := PreferredX(direction, bubbleFrame, expectWidth);
      direction == Left && p < bubbleFrame.x <= screenWidth - expectWidth ==> r.x == bubbleFrame.x
    ensures direction == Left && screenWidth - expectWidth < bubbleFrame.x ==> r.x == screenWidth - expectWidth
    ensures var p := PreferredX(direction, bubbleFrame, expectWidth);
      direction == Left && p > screenWidth - expectWidth ==> r.x == screenWidth - expectWidth
    ensures var p := PreferredX(direction, bubbleFrame, expectWidth);
      direction == Right ==> r.x == p || r.x == 0.0 || r.x == bubbleFrame.MaxX() - expectWidth
    ensures var p := PreferredX(direction, bubbleFrame, expectWidth);
      direction == Right && p + expectWidth > bubbleFrame.MaxX() && bubbleFrame.MaxX() - expectWidth >= 0.0 ==>
        r.x == bubbleFrame.MaxX() - expectWidth
    ensures direction == Right && bubbleFrame.MaxX() - expectWidth < 0.0 ==> r.x == 0.0
    ensures var p := PreferredX(direction, bubbleFrame, expectWidth);
      direction == Right && p < 0.0 ==> r.x == 0.0
  {
    var preferred := PreferredX(direction, bubbleFrame, expectWidth);
    var x :=
      if direction == Left then
        var notLeftOfBubble := if preferred < bubbleFrame.x then bubbleFrame.x else preferred;
        Min(screenWidth - expectWidth, notLeftOfBubble)
      else
        var notRightOfBubble :=
          if preferred + expectWidth > bubbleFrame.MaxX() then bubbleFrame.MaxX() - expectWidth else preferred;
        Max(0.0, notRightOfBubble);
    Rect(x, bubbleFrame.y - MenuVerticalOffset - MenuBackgroundViewHeight, expectWidth, MenuViewHeight)
  }

  /** The bubble's frame in screen coordinates: converted when the view
      has a superview, its own frame otherwise. */
  function AnchorFrame(bubbleView: BubbleView): (f: Rect)
    ensures bubbleView.frameInWindow.Some? ==> f == bubbleView.frameInWindow.value
    ensures bubbleView.frameInWindow.None? ==> f == bubbleView.frame
  {
    match bubbleView.frameInWindow
    case Some(f) => f
    case None => bubbleView.frame
  }

  /** The menu frame for a bubble view and an item count, with the item
      spacing `offset` fixed earlier and the current screen width. */
  function CalcFrameForView(direction: Direction, bubbleView: BubbleView, itemsCount: nat,
                            offset: real, screenWidth: real): (r: Rect)
    requires 0.0 < offset <= 20.0
    ensures r.width >= MenuBackgroundViewHeight && r.height == MenuViewHeight
    ensures forall i :: 0 <= i < itemsCount ==>
      0.0 <= ItemFrame(i, offset, r.height).MinX() && ItemFrame(i, offset, r.height).MaxX() <= r.width
  {
    var r := CalcFrame(direction, AnchorFrame(bubbleView), ExpectWidth(itemsCount, offset), screenWidth);
    ItemsInsideMenu(itemsCount, offset, r.height);
    r
  }

  /** The screen x of the small pointer under the menu: just right of a
      left bubble's right edge, just left of a right bubble's left edge. */
  function LittleBubbleX(direction: Direction, bubbleView: BubbleView): (x: real)
    ensures direction == Left ==> x == AnchorFrame(bubbleView).MaxX() + 2.0
    ensures direction == Right ==> x + 6.0 == AnchorFrame(bubbleView).x
  {
    var f := AnchorFrame(bubbleView);
    match direction
    case Left => f.MaxX() + 2.0
    case Right => f.x - 6.0
  }

  /** The frame the controller gives item `index`, in the menu's own
      coordinates, for a menu view of height `viewHeight`. */
  function ItemFrame(index: nat, offset: real, viewHeight: real): (r: Rect)
    ensures r.width == MenuItemSide && r.height == MenuItemSide
    ensures r.MinX() == index as real * (MenuItemSide + offset) + offset
    // the item's centre is halfway down the background band
    ensures r.y + 0.5 * r.height == 0.5 * (viewHeight - MenuViewHeight + MenuBackgroundViewHeight)
  {
    var centerY := 0.5 * (viewHeight - MenuViewHeight + MenuBackgroundViewHeight);
    Rect(index as real * (MenuItemSide + offset) + offset, centerY - 0.5 * MenuItemSide, MenuItemSide, MenuItemSide)
  }

  /** Items are placed left to right: each one ends `offset` points
      before the next begins. */
  lemma ItemsOrdered(offset: real, viewHeight: real, i: nat, j: nat)
    requires offset > 0.0 && i < j
    ensures ItemFrame(i, offset, viewHeight).MaxX() + offset <= ItemFrame(j, offset, viewHeight).MinX()
    ensures ItemFrame(i, offset, viewHeight).MaxX() < ItemFrame(j, offset, viewHeight).MinX()
  {
    var d := (j - i) as real;
    assert j as real * (MenuItemSide + offset) == i as real * (MenuItemSide + offset) + d * (MenuItemSide + offset);
    MulAtLeast(d, MenuItemSide + offset);
  }

  lemma MulAtLeast(d: real, c: real)
    requires d >= 1.0 && c >= 0.0
    ensures d * c >= c
  {
  }

  /** The last item's right edge plus one spacing is exactly the width
      the items ask for. */
  lemma LastItemEdge(count: nat, offset: real, viewHeight: real)
    requires count > 0
    ensures ItemFrame(count - 1, offset, viewHeight).MaxX() + offset == UnclampedWidth(count, offset)
  {
  }

  /** Every item lies horizontally inside the menu frame. */
  lemma ItemsInsideMenu(count: nat, offset: real, viewHeight: real)
    requires offset >= 0.0
    ensures forall i :: 0 <= i < count ==>
      0.0 <= ItemFrame(i, offset, viewHeight).MinX() &&
      ItemFrame(i, offset, viewHeight).MaxX() <= ExpectWidth(count, offset)
  {
  }

  /** In the 60-point menu view every item is vertically centred on the
      46-point background band and lies inside it. */
  lemma ItemsCenteredInBand(index: nat, offset: real)
    ensures var f := ItemFrame(index, offset, MenuViewHeight);
      f.y + 0.5 * f.height == 0.5 * MenuBackgroundViewHeight &&
      0.0 <= f.MinY() && f.MaxY() <= MenuBackgroundViewHeight
  {
  }

  /** When the menu keeps its preferred position, the pointer, placed
      relative to the menu's origin, lies within the menu's width. */
  lemma PointerUnderMenu(direction: Direction, bubbleView: BubbleView, itemsCount: nat, offset: real, screenWidth: real)
    requires 0.0 < offset <= 20.0
    requires var f := AnchorFrame(bubbleView);
      var w := ExpectWidth(itemsCount, offset);
      var p := PreferredX(direction, f, w);
      if direction == Left then f.x <= p <= screenWidth - w else 0.0 <= p && p + w <= f.MaxX()
    ensures var r := CalcFrameForView(direction, bubbleView, itemsCount, offset, screenWidth);
      var pointerX := LittleBubbleX(direction, bubbleView) - r.x;
      0.0 <= pointerX && pointerX + LittleBubbleWidth <= r.width
  {
  }

  /** On a screen at least 414 points wide five items need 270 points.
      Above a 40-point bubble at x = 300 on the left, the menu starts at
      the bubble's left edge on a screen at least 570 points wide; on a
      414-point screen the screen's right edge pushes it to x = 144. */
  lemma FiveItemsOverLeftBubble(screenWidth: real)
    requires screenWidth >= 414.0
    ensures ExpectWidth(5, MenuItemOffset(screenWidth)) == 270.0
    ensures var r := CalcFrame(Left, Rect(300.0, 100.0, 40.0, 40.0), 270.0, screenWidth);
      (screenWidth >= 570.0 ==> r == Rect(300.0, 50.0, 270.0, MenuViewHeight)) &&
      (screenWidth == 414.0 ==> r == Rect(144.0, 50.0, 270.0, MenuViewHeight))
  {
  }

  /** The bubble menu's view controller. Loading its view assigns the
      menu frame, the background band, the pointer and every item's frame;
      the view stays hidden until the menu is shown. */
  class BubbleController {
    const direction: Direction
    const items: seq<Item>
    const bubbleView: BubbleView
    /** The frames of the item buttons, one per item, in the menu's view. */
    const itemFrames: array<Rect>
    var frame: Rect
    var backgroundFrame: Rect
    var littleBubbleFrame: Rect
    var isHidden: bool
    /** Whether the view has been loaded (and `viewDidLoad` has run). */
    var viewLoaded: bool

    ghost predicate Valid()
      reads this
    {
      itemFrames.Length == |items|
    }

    /** The state `viewDidLoad` leaves: the view framed by
        `CalcFrameForView`, item `i` at `ItemFrame(i, …)`, the background
        band across the top, the 17x22 pointer on the bottom edge at the
        pointer x relative to the menu, and the view hidden. */
    ghost predicate LaidOut(offset: real, screenWidth: real)
      reads this, itemFrames
    {
      Valid() && viewLoaded && 0.0 < offset <= 20.0 &&
      frame == CalcFrameForView(direction, bubbleView, |items|, offset, screenWidth) &&
      (forall i :: 0 <= i < itemFrames.Length ==> itemFrames[i] == ItemFrame(i, offset, frame.height)) &&
      backgroundFrame == Rect(0.0, 0.0, frame.width, MenuBackgroundViewHeight) &&
      littleBubbleFrame == Rect(LittleBubbleX(direction, bubbleView) - frame.x,
                                frame.height - LittleBubbleHeight, LittleBubbleWidth, LittleBubbleHeight) &&
      isHidden
    }

    /** A controller for a bubble on the left leaves its view unloaded; one
        for a bubble on the right touches its view (to set the resizing
        mask), which loads it and so runs `viewDidLoad` at once. */
    constructor (direction: Direction, items: seq<Item>, bubbleView: BubbleView, offset: real, screenWidth: real)
      requires 0.0 < offset <= 20.0
      ensures Valid() && fresh(itemFrames)
      ensures this.direction == direction && this.items == items && this.bubbleView == bubbleView
      ensures direction == Left ==>
        !viewLoaded && (forall i :: 0 <= i < itemFrames.Length ==> itemFrames[i] == Zero) &&
        frame == Zero && backgroundFrame == Zero && littleBubbleFrame == Zero && !isHidden
      ensures direction == Right ==> LaidOut(offset, screenWidth)
    {
      this.direction := direction;
      this.items := items;
      this.bubbleView := bubbleView;
      itemFrames := new Rect[|items|](_ => Zero);
      frame, backgroundFrame, littleBubbleFrame := Zero, Zero, Zero;
      isHidden := false;
      viewLoaded := false;
      new;
      if direction == Right {
        LoadViewIfNeeded(offset, screenWidth);
      }
    }

    /** Reading the `view` property: the first read loads the view and runs
        `viewDidLoad`, later reads change nothing. */
    method LoadViewIfNeeded(offset: real, screenWidth: real)
      requires Valid() && 0.0 < offset <= 20.0
      modifies this, itemFrames
      ensures Valid()
      ensures old(viewLoaded) ==> unchanged(this, itemFrames)
      ensures !old(viewLoaded) ==> LaidOut(offset, screenWidth)
    {
      if !viewLoaded {
        ViewDidLoad(offset, screenWidth);
      }
    }

    /** viewDidLoad together with the initial layout of the subviews. */
    method ViewDidLoad(offset: real, screenWidth: real)
      requires Valid() && 0.0 < offset <= 20.0
      modifies this, itemFrames
      ensures LaidOut(offset, screenWidth)
    {
      frame := CalcFrameForView(direction, bubbleView, |items|, offset, screenWidth);
      SetupViewsInitializedStatus(offset);
      littleBubbleFrame := littleBubbleFrame.(x := LittleBubbleX(direction, bubbleView) - frame.x);
      isHidden := true;
      viewLoaded := true;
    }

    /** Sizes and places every item button, the background band and the
        pointer in the already framed menu view. */
    method SetupViewsInitializedStatus(offset: real)
      requires Valid()
      modifies this`backgroundFrame, this`littleBubbleFrame, itemFrames
      ensures forall i :: 0 <= i < itemFrames.Length ==> itemFrames[i] == ItemFrame(i, offset, frame.height)
      ensures backgroundFrame == Rect(0.0, 0.0, frame.width, MenuBackgroundViewHeight)
      ensures littleBubbleFrame == old(littleBubbleFrame).(width := LittleBubbleWidth, height := LittleBubbleHeight,
                                                           y := frame.height - LittleBubbleHeight)
    {
      for index := 0 to itemFrames.Length
        invariant forall i :: 0 <= i < index ==> itemFrames[i] == ItemFrame(i, offset, frame.height)
        invariant littleBubbleFrame == old(littleBubbleFrame)
      {
        var f := itemFrames[index].(width := MenuItemSide, height := MenuItemSide);
        f := f.(y := 0.5 * (frame.height - MenuViewHeight + MenuBackgroundViewHeight) - 0.5 * f.height);
        f := f.(x := index as real * (MenuItemSide + offset) + offset);
        itemFrames[index] := f;
      }
      backgroundFrame := Rect(0.0, 0.0, frame.width, MenuBackgroundViewHeight);
      littleBubbleFrame := littleBubbleFrame.(width := LittleBubbleWidth, height := LittleBubbleHeight);
      littleBubbleFrame := littleBubbleFrame.(y := frame.height - LittleBubbleHeight);
    }
  }
}
