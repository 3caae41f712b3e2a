# ChatMenu layout and dispatch, in Dafny

ChatMenu shows a contextual menu over a chat bubble. The menu has two parts:

- A **bubble menu**: a row of quick-action items (emoji, say) on a 46-point background band. It floats above the bubble and has a small pointer under it.
- An **action sheet**: the normal actions in one rounded group and the cancel actions in another. It slides up from the bottom of the screen.

Touching an item runs its action and asks the menu to dismiss. On the sheet the user can also drag across the items. The item under the finger is highlighted, and lifting the finger over an item runs that item.

The model covers the parts of `ChatMenu/ChatMenu/ChatMenu.swift` that compute something:

- `wrappers.dfy`, module `Wrappers`: an `Option` datatype.
- `rects.dfy`, module `Rects`: points and rectangles (CGPoint, CGRect), with CGFloat as `real`. Like Core Graphics, `MinX`/`MaxX` read the standardized rectangle, and `Contains` is half-open.
- `bubble.dfy`, module `Bubble`: the bubble menu's width, its frame above the bubble, the pointer's position and the item positions. Also the `BubbleController` class, which assigns all these frames when its view loads.
- `sheet.dfy`, module `Sheet`: how the actions split into the normal and cancel groups, the group and sheet heights, where each item sits, where `show` slides the sheet to, and what releasing a pan gesture at a point does.
- `action_sheet.dfy`, module `ActionSheets`: the `ActionSheet` class. It holds the item frames, the highlight flags, the sheet's frame and the trace of effects issued: actions run and dismiss requests. Its methods cover layout, show, hide, touch down, tap and the pan-gesture handler, whose two branches are `HighlightUnder` and `ReleaseAt`. `DragAndRelease` drives a laid-out sheet through a drag onto one item and a release there.
- `scale_button.dfy`, module `ScaleButton`: the button that grows while touched. Touch events set its activated flag, and only a change of the flag starts a spring animation. The class records the animations it starts.

### How inputs are modelled

- **Bubble frame.** The source converts the bubble's frame into the key window's coordinates. The model takes the result of that conversion as an input: `BubbleView.frameInWindow`, which is `None` when the view has no superview. In that case the source uses the view's own frame, and so does `AnchorFrame`.
- **Screen width.** A parameter.
- **Item spacing.** The source's `menuItemOffset` is a file-scope constant. It is computed once, from the screen width at its first use, and kept after that. `_calcFrame` instead reads the current screen width on every call, so after a rotation the two come from different widths. `MenuItemOffset` gives the spacing for a given width. The layout members take the spacing (`offset`, between 0 exclusive and 20 inclusive, the values `MenuItemOffset` takes on a screen of positive width) and the current screen width as separate parameters.
- **Callbacks and colours.** Closures and colours become opaque identifiers. Running a callback is recorded as an `Effect` in a trace.
- **Dismiss callback.** The sheet's dismiss callback is optional in the source, but the menu controller always sets it. The model records every dismiss request.
- **Animated frames.** An animated frame is modelled by the value the animation ends at.
- **Bubble edges.** The menu placement compares against the bubble's `origin.x` and its standardized `maxX`, exactly as the code does. For a bubble frame of negative width, `origin.x` is not the left edge.

## Model

| member | source | states |
|---|---|---|
| `Bubble.MenuItemOffset` | ChatMenu/ChatMenu/ChatMenu.swift:632 | The item spacing is at most 20. It is positive on a screen of positive width. It reaches 20 exactly when the screen is at least 414 points wide. |
| `Bubble.ExpectWidth` | ChatMenu/ChatMenu/ChatMenu.swift:161-165 | The menu width is the larger of the floor of 46 and the width `n*30 + (n+1)*offset` the items need: it is at least both and equal to one of them, so for zero items it is 46. |
| `Bubble.CalcFrame` | ChatMenu/ChatMenu/ChatMenu.swift:168-181 | The frame's y is the bubble's top minus 4 minus 46. Its width is the expected width and its height is 60. A left menu never passes `screenWidth - width` and starts at or right of the bubble's x whenever there is room. A right menu never starts left of 0 and ends at or before the bubble's maxX whenever it is not wider than that. The preferred position is kept whenever it breaks no clamp. When a clamp moves the menu, x is the edge it would otherwise cross. For a left menu that is `screenWidth - width` when the preferred x or the bubble's x lies beyond it, and the bubble's x otherwise. For a right menu it is 0 when the preferred x or `maxX - width` is negative, and `maxX - width` otherwise. |
| `Bubble.PreferredX` | ChatMenu/ChatMenu/ChatMenu.swift:170-175 | Before clamping, a left menu ends 20 points right of the bubble's maxX, and a right menu starts 20 points left of the bubble's x. |
| `Bubble.AnchorFrame` | ChatMenu/ChatMenu/ChatMenu.swift:187-191 | The bubble frame used for placement is the frame converted into window coordinates when the bubble has a superview, and the bubble's own frame otherwise. |
| `Bubble.CalcFrameForView` | ChatMenu/ChatMenu/ChatMenu.swift:184-193 | Places the menu from the anchor frame, with the item spacing fixed earlier and the current screen width. The frame is at least 46 wide and 60 high, and every item lies horizontally inside it. |
| `Bubble.LittleBubbleX` | ChatMenu/ChatMenu/ChatMenu.swift:196-209 | The pointer's window x is 2 points right of the anchor frame's maxX for a left bubble, and 6 points left of its x for a right bubble. |
| `Bubble.ItemFrame` | ChatMenu/ChatMenu/ChatMenu.swift:119-121 | An item is 30x30. Item `i` starts at `i*(30+offset)+offset`, and its centre is halfway down the background band of a view of the given height. |
| `Bubble.ItemsOrdered` | ChatMenu/ChatMenu/ChatMenu.swift:121 | Item x-positions `i*(30+offset)+offset` increase strictly. Each item ends at least one spacing before the next begins, so items never overlap. |
| `Bubble.LastItemEdge` | ChatMenu/ChatMenu/ChatMenu.swift:121 | The last item's right edge plus one spacing equals the width the items need, before the width floor is applied. |
| `Bubble.ItemsInsideMenu` | ChatMenu/ChatMenu/ChatMenu.swift:118-122 | Every item lies within `[0, ExpectWidth]`. |
| `Bubble.ItemsCenteredInBand` | ChatMenu/ChatMenu/ChatMenu.swift:119-120 | In the 60-point menu view, each 30-point item is centred on the 46-point background band and lies inside it. |
| `Bubble.PointerUnderMenu` | ChatMenu/ChatMenu/ChatMenu.swift:196-209 | The pointer is placed at maxX + 2 for a left bubble and x - 6 for a right bubble, stored relative to the menu's origin. When the menu keeps its preferred position, the pointer lies within the menu's width. |
| `Bubble.FiveItemsOverLeftBubble` | ChatMenu/ChatMenu/ChatMenu.swift:161-181 | Worked example: on a screen at least 414 points wide, five items need 270 points. Above a bubble at (300, 100, 40, 40) on the left, the menu frame is (300, 50, 270, 60) on a screen at least 570 points wide. On a 414-point screen the right screen edge pushes it to (144, 50, 270, 60). |
| `Bubble.BubbleController.constructor` | ChatMenu/ChatMenu/ChatMenu.swift:62-71 | Keeps the direction, items and bubble view, with one item frame per item. For a left bubble the view is not loaded yet. For a right bubble, `init` touches `view`, which loads it, so the controller is already in the state `viewDidLoad` leaves (`LaidOut`). |
| `Bubble.BubbleController.LoadViewIfNeeded` | ChatMenu/ChatMenu/ChatMenu.swift:67-70 | Reading `view`: the first read runs `viewDidLoad` and leaves the controller laid out. Later reads change nothing. |
| `Bubble.BubbleController.ViewDidLoad` | ChatMenu/ChatMenu/ChatMenu.swift:81-89 | Leaves the state `LaidOut` describes. The view frame is `CalcFrameForView`, and item `i`'s frame is `ItemFrame(i, …)`. The background band is (0, 0, width, 46). The pointer is 17x22, on the view's bottom edge, at the pointer x relative to the menu. The view is hidden. |
| `Bubble.BubbleController.SetupViewsInitializedStatus` | ChatMenu/ChatMenu/ChatMenu.swift:117-137 | Loops over the items and gives each its frame. Sets the background band and the pointer's size and y. |
| `Sheet.Filter` | ChatMenu/ChatMenu/ChatMenu.swift:266-267 | A group holds only actions of its style, none from outside the input, and every input action of that style. |
| `Sheet.FilterIsSubsequence` | ChatMenu/ChatMenu/ChatMenu.swift:266-267 | Each group is a subsequence of the input, so its order is preserved. |
| `Sheet.FilterAppend` | ChatMenu/ChatMenu/ChatMenu.swift:266-267 | Filtering distributes over concatenation, so actions in a group never change their relative order. |
| `Sheet.FilterCounts` | ChatMenu/ChatMenu/ChatMenu.swift:266-267 | A group holds each action of its style exactly as often as the input does, and no action of the other style. |
| `Sheet.PartitionIsComplete` | ChatMenu/ChatMenu/ChatMenu.swift:266-267 | The two groups together are the input as a multiset, and their lengths add up to the input length. |
| `Sheet.ItemY` | ChatMenu/ChatMenu/ChatMenu.swift:397 | Item `i` of a group sits at the non-negative offset `i*57.5`. How the items stack is stated by `GroupItemsStack`. |
| `Sheet.GroupHeight` | ChatMenu/ChatMenu/ChatMenu.swift:358-368 | A group's height is positive exactly when the group is non-empty. It then equals the bottom of its last item, `(n-1)*57.5 + 57`. |
| `Sheet.ExpectHeight` | ChatMenu/ChatMenu/ChatMenu.swift:353-356 | The sheet height is the sum of the two group heights, plus 8 exactly when both groups are non-empty. The source tests the heights; the contract is stated on the counts. |
| `Sheet.ThreeNormalOneCancel` | ChatMenu/ChatMenu/ChatMenu.swift:353-368 | Worked example: three normal actions and one cancel action give 172 + 57 + 8 = 237. |
| `Sheet.GroupItemsStack` | ChatMenu/ChatMenu/ChatMenu.swift:396-402 | Inside a group, item `i` sits at `i*57.5`. Consecutive items are separated by a hairline, and all of them lie within the group's height. |
| `Sheet.ItemFrame` | ChatMenu/ChatMenu/ChatMenu.swift:396-402 | An item spans its group's full width, from `ItemY(i)` down to `ItemY(i) + 57`. |
| `Sheet.NormalContentFrame` | ChatMenu/ChatMenu/ChatMenu.swift:392 | The normal group spans the sheet's width, from 0 down to its group height. |
| `Sheet.CancelContentFrameAsWritten` | ChatMenu/ChatMenu/ChatMenu.swift:393 | The cancel group as written: always 8 points below the normal group. It agrees with `CancelContentFrame` whenever both groups are non-empty. |
| `Sheet.CancelContentFrame` | ChatMenu/ChatMenu/ChatMenu.swift:393 | Corrected placement of the cancel group: the 8-point gap is used only when both groups exist. The group then ends exactly at the sheet height (see Findings). |
| `Sheet.CancelOnlySheetOverflows` | ChatMenu/ChatMenu/ChatMenu.swift:393 | With the placement as written and no normal actions, the cancel group ends 8 points below the bottom of the sheet. |
| `Sheet.SheetItemRects` | ChatMenu/ChatMenu/ChatMenu.swift:391-402 | One rectangle per item, in sheet coordinates, with the corrected cancel position. These are the rectangles the model's sheet hit-tests. Their properties are the two lemmas below. |
| `Sheet.SheetItemRectsAsWritten` | ChatMenu/ChatMenu/ChatMenu.swift:391-402 | The same rectangles with the cancel group placed as written at line 393. They equal the corrected ones whenever the normal group is non-empty. |
| `Sheet.SheetItemsInsideSheet` | ChatMenu/ChatMenu/ChatMenu.swift:391-402 | With the corrected cancel position, every item lies between 0 and the sheet height in sheet coordinates. As written, this fails for a sheet with only cancel actions (see Findings). |
| `Sheet.ItemRectsDisjoint` | ChatMenu/ChatMenu/ChatMenu.swift:391-402 | Whenever the cancel group starts at or below the normal group's bottom, no point lies in two items. |
| `Sheet.SheetItemsDisjoint` | ChatMenu/ChatMenu/ChatMenu.swift:391-402 | No point lies in two items of a sheet laid out with the corrected cancel position. |
| `Sheet.SheetItemsDisjointAsWritten` | ChatMenu/ChatMenu/ChatMenu.swift:391-402 | No point lies in two items of a sheet laid out as written either. So the single-hit and release lemmas apply to the layout as written too. |
| `Sheet.CancelOnlyReleaseDiffers` | ChatMenu/ChatMenu/ChatMenu.swift:393 | On a sheet with one cancel action and no normal action, a release at (5, 3) fires the cancel item with the corrected layout. With the layout as written, the same release hits no item. |
| `Sheet.ShowFrames` | ChatMenu/ChatMenu/ChatMenu.swift:407-415 | The sheet starts just below the container's bottom edge, inset by 10 on both sides, with the sheet height. Only its y is animated, to `containerHeight - 8 - height`, so its bottom ends 8 points above the container's bottom. |
| `Sheet.Hits` | ChatMenu/ChatMenu/ChatMenu.swift:320-322 | The hit list holds exactly the indices of the items containing the point, in increasing order. |
| `Sheet.ReleaseEffects` | ChatMenu/ChatMenu/ChatMenu.swift:319-326 | The effects of the `.ended` loop over the items: at most one action and one dismiss request per item, so an even number. `ReleaseFiresHits` states which items fire. |
| `Sheet.RunAndDismiss` | ChatMenu/ChatMenu/ChatMenu.swift:322-325 | For each item in order, its action runs and is immediately followed by one dismiss request. |
| `Sheet.ReleaseFiresHits` | ChatMenu/ChatMenu/ChatMenu.swift:319-326 | On release, exactly the items containing the point fire, in normal-then-cancel order. Each is followed by one dismiss request. |
| `Sheet.ReleaseOutsideFiresNothing` | ChatMenu/ChatMenu/ChatMenu.swift:319-326 | A release outside every item runs no action and requests no dismissal. |
| `Sheet.HitsSingle` | ChatMenu/ChatMenu/ChatMenu.swift:320-322 | Among non-overlapping items, a point inside item `j` hits `j` alone. |
| `Sheet.ReleaseOverOneItem` | ChatMenu/ChatMenu/ChatMenu.swift:319-326 | Over non-overlapping items, a release inside item `j` runs only `j`'s action, then asks once for dismissal. |
| `ActionSheets.HitRectsOf` | ChatMenu/ChatMenu/ChatMenu.swift:311-313 | One rectangle per item: its frame moved by the origin of its group's content view. |
| `ActionSheets.HitTestInContentView` | ChatMenu/ChatMenu/ChatMenu.swift:311-313 | A point of the sheet is inside item `k`'s rectangle exactly when the point, converted into the coordinates of the item's content view, lies in the item's frame. This is the `convert` followed by `point(inside:)` of the source. |
| `ActionSheets.ActionSheet.constructor` | ChatMenu/ChatMenu/ChatMenu.swift:265-270 | The normal and cancel lists are the style filters of the actions, one item per action. Nothing is highlighted or laid out. |
| `ActionSheets.ActionSheet.LayoutViews` | ChatMenu/ChatMenu/ChatMenu.swift:391-403 | Sets the normal group at (0, 0, width, normal height), the cancel group below it, and item `i` of either group at (0, `i*57.5`, width, 57) in its group. The items' sheet-space rectangles are then `SheetItemRects`. The cancel group uses the corrected gap. |
| `ActionSheets.ActionSheet.Show` | ChatMenu/ChatMenu/ChatMenu.swift:407-416 | Adds the sheet to the container and ends at `ShowFrames`' target, with its bottom 8 points above the container's bottom. |
| `ActionSheets.ActionSheet.Hide` | ChatMenu/ChatMenu/ChatMenu.swift:418-425 | With a superview, the sheet slides to the superview's height and is removed. Without one, nothing changes. |
| `ActionSheets.ActionSheet.TouchDown` | ChatMenu/ChatMenu/ChatMenu.swift:461 | Touching an item down highlights it and changes nothing else. |
| `ActionSheets.ActionSheet.TapItem` | ChatMenu/ChatMenu/ChatMenu.swift:468-471 | A tap runs the item's action and turns it inactive, then records one dismiss request. |
| `ActionSheets.ActionSheet.ListenFor` | ChatMenu/ChatMenu/ChatMenu.swift:306-330 | On began or changed, item `k` ends up highlighted exactly when it contains the point, and nothing fires. On ended, the trace grows by `ReleaseEffects`, the hit items turn inactive and the others keep their flag. Any other state changes nothing. |
| `ActionSheets.ActionSheet.HighlightUnder` | ChatMenu/ChatMenu/ChatMenu.swift:310-318 | Loops over the items: afterwards each item is highlighted exactly when its rectangle contains the point. |
| `ActionSheets.ActionSheet.ReleaseAt` | ChatMenu/ChatMenu/ChatMenu.swift:319-326 | Loops over the items: the trace grows by `ReleaseEffects` of the items and their rectangles, and exactly the hit items turn inactive. |
| `ActionSheets.LaidOutRelease` | ChatMenu/ChatMenu/ChatMenu.swift:319-326 | For the rectangles of a laid-out sheet, a point inside item `j` is inside no other item. Releasing there fires item `j`'s action and one dismiss request, nothing else. |
| `ActionSheets.DragAndRelease` | ChatMenu/ChatMenu/ChatMenu.swift:306-330 | On a laid-out sheet, the finger goes down at any point, moves to item `j` and is lifted there (began, changed, ended). Once the finger is over `j`, only `j` is highlighted. On release, the trace grows by `j`'s action and one dismiss request, and no item stays highlighted. |
| `ScaleButton.Assigned` | ChatMenu/ChatMenu/ChatMenu.swift:620-625 | Touch-down and drag-inside assign `true`. Touch-up-inside and drag-outside assign `false`. The other events have no handler. |
| `ScaleButton.Step` | ChatMenu/ChatMenu/ChatMenu.swift:612-625 | After one event the flag keeps its value unless a handler assigns one, and then it takes the assigned value. |
| `ScaleButton.Final` | ChatMenu/ChatMenu/ChatMenu.swift:612-625 | With no events the flag is its start value. A last event that has a handler decides the flag. |
| `ScaleButton.LastHandledEventDecides` | ChatMenu/ChatMenu/ChatMenu.swift:612-625 | The last event that has a handler decides the flag, whatever unhandled events follow it. |
| `ScaleButton.UnhandledEventsKeepStart` | ChatMenu/ChatMenu/ChatMenu.swift:620-625 | Events without handlers leave the flag at its start value and start no animation. |
| `ScaleButton.Animations` | ChatMenu/ChatMenu/ChatMenu.swift:585-598 | The animations a sequence of events starts: never more than there are events. |
| `ScaleButton.AnimationsAlternate` | ChatMenu/ChatMenu/ChatMenu.swift:585-598 | Every animation reverses the previous one. The first leaves the initial state, and the last goes to the current flag. With no animation, the flag has not changed. |
| `ScaleButton.RepeatedEventIsIgnored` | ChatMenu/ChatMenu/ChatMenu.swift:587 | Delivering the same event twice in a row leaves the flag and the animations as after one delivery. |
| `ScaleButton.ScaleForActivatedButton.constructor` | ChatMenu/ChatMenu/ChatMenu.swift:600-604 | A new button is inactive and has started no animation. |
| `ScaleButton.ScaleForActivatedButton.TargetScale` | ChatMenu/ChatMenu/ChatMenu.swift:588-596 | The transform being animated to, or rested at, is the enlarged scale exactly while the button is activated, and the identity otherwise. |
| `ScaleButton.ScaleForActivatedButton.SetActivated` | ChatMenu/ChatMenu/ChatMenu.swift:585-598 | Assigning the flag sets it, and records an animation towards the new value only when the value changed. |
| `ScaleButton.ScaleForActivatedButton.SwitchToNormal` | ChatMenu/ChatMenu/ChatMenu.swift:612-614 | Deactivates. Animates back to identity only if the button was active. |
| `ScaleButton.ScaleForActivatedButton.SwitchToActivated` | ChatMenu/ChatMenu/ChatMenu.swift:616-618 | Activates. Animates to the enlarged scale only if the button was inactive. |
| `ScaleButton.ScaleForActivatedButton.Handle` | ChatMenu/ChatMenu/ChatMenu.swift:620-625 | Touch-down and drag-inside activate. Touch-up-inside and drag-outside deactivate. Other events change nothing. The flag and the animations stay equal to `Final` and `Animations` of all events delivered. |

## Findings

| source | as written | input that shows it | evidently intended | confidence | as-written member | corrected member |
|---|---|---|---|---|---|---|
| ChatMenu/ChatMenu/ChatMenu.swift:393 | The cancel group is placed at `normal.maxY + 8`, even when there are no normal actions. `_expectHeight` (lines 353-356) adds the 8-point gap only when both groups are non-empty. | Actions with only cancel styles, e.g. one cancel action: the sheet is 57 high, but its cancel group spans y = 8 to 65. The cancel button sticks out 8 points below the sheet, so it sits flush with the container edge instead of 8 points above it, and its lowest 8 points lie outside the sheet's view. | Gap only between two non-empty groups, so that the groups end exactly at the sheet height | medium, not executed | `Sheet.CancelContentFrameAsWritten`, exhibited by `Sheet.CancelOnlySheetOverflows` and `Sheet.CancelOnlyReleaseDiffers` | `Sheet.CancelContentFrame` (used by `ActionSheet.LayoutViews`; its end equals `ExpectHeight`, and `SheetItemsInsideSheet` holds) |

## Left out

- Animations are not modelled: spring and slide curves, durations, delays, the item stagger, the initial rotate-and-shrink transforms and alpha values (lines 124, 133-136, 139-156, 413-424, 589-595). A method's resulting frame is the value its animation ends at.
- CGFloat rounding is not modelled: CGFloat is `real`. The spacing `20 * (width / 414)` and the sums and products built from it round in the program. So exact equalities about item positions, such as `LastItemEdge` or the bound in `ItemsInsideMenu`, hold in the program only up to rounding when the spacing is not a binary fraction.
- UIKit wiring is not modelled: child view controllers, `addSubview`, presentation, blur views, corner radii, fonts, colours and autoresizing masks. None of it computes anything.
- The conversion of the bubble's frame into window coordinates (lines 187-191, 197-202) is a toolkit call. It is an input of the model.
- `Controller._dismiss`, its callbacks and the dismiss on rotation (lines 540-563) are not modelled. They only orchestrate; the model stops at the dismiss request.
- The bubble snapshot view (lines 567-578) is not modelled: it is a toolkit snapshot.
- `BundleTool.swift` (image loading) and the sample app are not part of this model.
- `BubbleController.show` (lines 139-156) is not modelled. It adds the view to its parent, un-hides it and starts the entrance animations. For a left bubble, its read of `view` is what loads the view; the model offers that as `LoadViewIfNeeded`.
- Where the item spacing comes from is not tracked: the model has no global state for "the screen width at the first use of `menuItemOffset`". The spacing is a parameter.
- Bubble item taps are not modelled (lines 127, 222, 232-234). They only wire the item's action and the controller's dismiss callback to touch-up-inside. The action sheet's equivalent is `TapItem`, whose target order (action, then dismiss) is the registration order.
- `Bubble.BubbleController.ViewDidLoad`: the pointer's x (line 87) is treated as written on the untransformed frame. In the program, line 136 of `_setupViewsInitializedStatus`, called at line 86, has already scaled the pointer by 0.1. So line 87 writes `frame` under a non-identity transform, where UIKit leaves `frame` undefined. In practice the pointer's centre moves rather than its edge, and once `show` animates the transform back to the identity, the pointer ends about 7.65 points left of the x stated here. Transforms are not modelled, so `LaidOut` gives the pointer frame the code would set without them.
- `ActionSheets.ActionSheet.Show`: it keeps only the frame the slide-in animation ends at. The starting frame is stated by `Sheet.ShowFrames`.
- `ActionSheets.ActionSheet.LayoutViews`: it uses the corrected cancel-group position. The position as written is `Sheet.CancelContentFrameAsWritten` (see Findings).
- Gestures are fed to the model directly. Recognizer states, hit-testing of touches outside the sheet's view, and the interplay between the pan recognizer and button taps belong to the toolkit.
