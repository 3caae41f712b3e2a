/** The action sheet's logic: splitting the actions into the normal and
    the cancel group, the heights of the groups, where every action item
    sits, and what a pan gesture released at a point does. */
module Sheet {
  import opened Rects

  datatype Style = Normal | Cancel

  /** An action of the sheet. Its colour and its callback are opaque
      handles; `callback` identifies the closure to run. */
  datatype Action = Action(style: Style, title: string, tintColor: nat, callback: nat)

  /** What the sheet asks of the outside world, in order. */
  datatype Effect =
    | RunAction(callback: nat)   // an action's callback ran
    | RequestDismiss             // the owner was asked to dismiss the menu

  const ItemHeight: real := 57.0
  const Hairline: real := 0.5
  const VerticalOffset: real := 8.0
  const HorizontalOffset: real := 10.0

  // ---------------------------------------------------------------------
  // Partition

  /** The actions of one style, in their original order. */
  function Filter(actions: seq<Action>, style: Style): (r: seq<Action>)
    ensures |r| <= |actions|
    ensures forall a :: a in r ==> a in actions && a.style == style
    ensures forall a :: a in actions && a.style == style ==> a in r
  {
    if actions == [] then []
    else if actions[0].style == style then [actions[0]] + Filter(actions[1..], style)
    else Filter(actions[1..], style)
  }

  /** `sub` is `s` with some elements left out and the rest in order. */
  ghost predicate IsSubsequence<T>(sub: seq<T>, s: seq<T>)
    decreases |s|
  {
    if sub == [] then true
    else if s == [] then false
    else (sub[0] == s[0] && IsSubsequence(sub[1..], s[1..])) || IsSubsequence(sub, s[1..])
  }

  /** Filtering keeps the relative order of the actions it keeps. */
  lemma {:induction false} FilterIsSubsequence(actions: seq<Action>, style: Style)
    ensures IsSubsequence(Filter(actions, style), actions)
  {
    if actions != [] {
      FilterIsSubsequence(actions[1..], style);
      var rest := Filter(actions[1..], style);
      if actions[0].style == style {
        assert ([actions[0]] + rest)[1..] == rest;
      } else if rest != [] {
        assert IsSubsequence(rest, actions[1..]);
      }
    }
  }

  /** Filtering a concatenation filters each part: the groups never mix
      actions from a later part in front of an earlier one. */
  lemma {:induction false} FilterAppend(a: seq<Action>, b: seq<Action>, style: Style)
    ensures Filter(a + b, style) == Filter(a, style) + Filter(b, style)
  {
    if a == [] {
      assert a + b == b;
    } else {
      var head := if a[0].style == style then [a[0]] else [];
      calc {
        Filter(a + b, style);
        == { FilterOfCons(a, b, style); }
        head + Filter(a[1..] + b, style);
        == { FilterAppend(a[1..], b, style); }
        head + (Filter(a[1..], style) + Filter(b, style));
        == { AppendAssociative(head, Filter(a[1..], style), Filter(b, style)); }
        (head + Filter(a[1..], style)) + Filter(b, style);
      }
    }
  }

  /** Filtering a non-empty concatenation looks at its first action. */
  lemma FilterOfCons(a: seq<Action>, b: seq<Action>, style: Style)
    requires a != []
    ensures Filter(a + b, style) == (if a[0].style == style then [a[0]] else []) + Filter(a[1..] + b, style)
  {
    assert (a + b)[0] == a[0] && (a + b)[1..] == a[1..] + b;
  }

  lemma AppendAssociative<T>(x: seq<T>, y: seq<T>, z: seq<T>)
    ensures x + (y + z) == (x + y) + z
  {
  }

  /** Filtering keeps each action of the style as often as it occurs
      and drops every action of the other style. */
  lemma {:induction false} FilterCounts(actions: seq<Action>, style: Style)
    ensures forall a: Action :: multiset(Filter(actions, style))[a] == if a.style == style then multiset(actions)[a] else 0
  {
    if actions != [] {
      FilterCounts(actions[1..], style);
      assert actions == [actions[0]] + actions[1..];
      assert multiset(actions) == multiset{actions[0]} + multiset(actions[1..]);
    }
  }

  /** Every action lands in exactly one of the two groups, as often as it
      occurs in the input, so the group sizes add up to the input size. */
  lemma PartitionIsComplete(actions: seq<Action>)
    ensures multiset(Filter(actions, Normal)) + multiset(Filter(actions, Cancel)) == multiset(actions)
    ensures |Filter(actions, Normal)| + |Filter(actions, Cancel)| == |actions|
  {
    FilterCounts(actions, Normal);
    FilterCounts(actions, Cancel);
    var n, c := multiset(Filter(actions, Normal)), multiset(Filter(actions, Cancel));
    assert n + c == multiset(actions) by {
      forall a: Action ensures (n + c)[a] == multiset(actions)[a] {
        if a.style == Normal { assert c[a] == 0; } else { assert n[a] == 0; }
      }
    }
    assert |n + c| == |multiset(actions)|;
  }

  // ---------------------------------------------------------------------
  // Heights

  /** The y offset of item `index` inside its group: items are 57 points
      high and separated by half-point hairlines. */
  function ItemY(index: nat): (y: real)
    ensures y >= 0.0
  {
    index as real * (ItemHeight + Hairline)
  }

  /** The height of a group of `count` items. */
  function GroupHeight(count: nat): (h: real)
    ensures h >= 0.0
    ensures h > 0.0 <==> count > 0
    ensures count > 0 ==> h == ItemY(count - 1) + ItemHeight
  {
    if count > 0 then count as real * ItemHeight + (count - 1) as real * Hairline else 0.0
  }

  /** The sheet's height: both groups, with an 8-point gap between them
      when both are present (the gap is chosen by the groups' heights). */
  function ExpectHeight(normalCount: nat, cancelCount: nat): (h: real)
    ensures h == GroupHeight(normalCount) + GroupHeight(cancelCount)
                 + (if normalCount > 0 && cancelCount > 0 then VerticalOffset else 0.0)
  {
    var normal, cancel := GroupHeight(normalCount), GroupHeight(cancelCount);
    var offset := if cancel > 0.0 && normal > 0.0 then VerticalOffset else 0.0;
    normal + cancel + offset
  }

  /** Within a group, consecutive items are separated by a hairline and
      the items, in order, fill the group exactly. */
  lemma GroupItemsStack(count: nat, i: nat, j: nat)
    requires i < j < count
    ensures ItemY(i) + ItemHeight + Hairline <= ItemY(j)
    ensures 0.0 <= ItemY(i) && ItemY(j) + ItemHeight <= GroupHeight(count)
  {
  }

  /** Three normal actions and one cancel action: 172 + 57 + 8 points. */
  lemma ThreeNormalOneCancel()
    ensures GroupHeight(3) == 172.0 && GroupHeight(1) == 57.0
    ensures ExpectHeight(3, 1) == 237.0
  {
  }

  // ---------------------------------------------------------------------
  // Layout of the two groups

  /** The frame of item `index` inside its group's content view. */
  function ItemFrame(index: nat, width: real): (r: Rect)
    ensures r.x == 0.0 && r.width == width
    ensures r.MinY() == ItemY(index) && r.MaxY() == ItemY(index) + ItemHeight
  {
    Rect(0.0, ItemY(index), width, ItemHeight)
  }

  /** The normal group's content view. */
  function NormalContentFrame(normalCount: nat, width: real): (r: Rect)
    ensures r.x == 0.0 && r.width == width
    ensures r.MinY() == 0.0 && r.MaxY() == GroupHeight(normalCount)
  {
    Rect(0.0, 0.0, width, GroupHeight(normalCount))
  }

  /** The cancel group's content view as the sheet lays it out: always 8
      points below the normal group, even when that group is empty. */
  function CancelContentFrameAsWritten(normalCount: nat, cancelCount: nat, width: real): (r: Rect)
    ensures r.y == GroupHeight(normalCount) + VerticalOffset
    // it agrees with the corrected position whenever both groups exist
    ensures normalCount > 0 && cancelCount > 0 ==> r == CancelContentFrame(normalCount, cancelCount, width)
  {
    Rect(0.0, NormalContentFrame(normalCount, width).MaxY() + VerticalOffset, width, GroupHeight(cancelCount))
  }

  /** The cancel group's content view with the gap used only when both
      groups are present, as the sheet's height assumes. */
  function CancelContentFrame(normalCount: nat, cancelCount: nat, width: real): (r: Rect)
    ensures r.y == GroupHeight(normalCount) + (if normalCount > 0 && cancelCount > 0 then VerticalOffset else 0.0)
    ensures r.MaxY() == ExpectHeight(normalCount, cancelCount)
  {
    var gap := if normalCount > 0 && cancelCount > 0 then VerticalOffset else 0.0;
    Rect(0.0, NormalContentFrame(normalCount, width).MaxY() + gap, width, GroupHeight(cancelCount))
  }

  /** A sheet with only cancel actions: as laid out, the cancel group
      ends 8 points below the bottom of the sheet. */
  lemma CancelOnlySheetOverflows(cancelCount: nat, width: real)
    requires cancelCount > 0
    ensures CancelContentFrameAsWritten(0, cancelCount, width).MaxY() == ExpectHeight(0, cancelCount) + VerticalOffset
  {
  }

  /** The rectangle of item `k` (normal items first) in the sheet's own
      coordinates, when the cancel group's content view is at `cancelY`. */
  function ItemRectAt(normalCount: nat, width: real, cancelY: real, k: nat): Rect {
    if k < normalCount then ItemFrame(k, width) else ItemFrame(k - normalCount, width).Offset(0.0, cancelY)
  }

  /** The rectangles of all items. */
  function ItemRectsAt(normalCount: nat, cancelCount: nat, width: real, cancelY: real): (r: seq<Rect>)
    ensures |r| == normalCount + cancelCount
  {
    seq(normalCount + cancelCount, k requires 0 <= k => ItemRectAt(normalCount, width, cancelY, k))
  }

  /** The item rectangles with the corrected cancel position, as
      `ActionSheet.LayoutViews` lays them out and `ListenFor` hit-tests
      them. */
  function SheetItemRects(normalCount: nat, cancelCount: nat, width: real): (r: seq<Rect>)
    ensures |r| == normalCount + cancelCount
  {
    ItemRectsAt(normalCount, cancelCount, width, CancelContentFrame(normalCount, cancelCount, width).y)
  }

  /** The item rectangles with the cancel group placed as written. */
  function SheetItemRectsAsWritten(normalCount: nat, cancelCount: nat, width: real): (r: seq<Rect>)
    ensures |r| == normalCount + cancelCount
    ensures normalCount > 0 ==> r == SheetItemRects(normalCount, cancelCount, width)
  {
    ItemRectsAt(normalCount, cancelCount, width, CancelContentFrameAsWritten(normalCount, cancelCount, width).y)
  }

  /** One cancel action and no normal action: a release 3 points below
      the sheet's top edge fires the cancel item with the corrected
      layout, and nothing with the layout as written. */
  lemma CancelOnlyReleaseDiffers(width: real)
    requires width > 5.0
    ensures Hits(SheetItemRects(0, 1, width), Point(5.0, 3.0)) == [0]
    ensures Hits(SheetItemRectsAsWritten(0, 1, width), Point(5.0, 3.0)) == []
  {
    var fixed, written := SheetItemRects(0, 1, width), SheetItemRectsAsWritten(0, 1, width);
    assert fixed[0] == ItemFrame(0, width).Offset(0.0, 0.0) && fixed[..0] == [];
    assert written[0] == ItemFrame(0, width).Offset(0.0, VerticalOffset) && written[..0] == [];
    assert fixed[0].Contains(Point(5.0, 3.0)) && !written[0].Contains(Point(5.0, 3.0));
  }

  /** With the corrected cancel position, every item lies within the
      sheet's height. */
  lemma SheetItemsInsideSheet(normalCount: nat, cancelCount: nat, width: real)
    ensures var r := SheetItemRects(normalCount, cancelCount, width);
      forall k :: 0 <= k < |r| ==> 0.0 <= r[k].MinY() && r[k].MaxY() <= ExpectHeight(normalCount, cancelCount)
  {
    forall k | 0 <= k < normalCount + cancelCount
      ensures var f := SheetItemRects(normalCount, cancelCount, width)[k];
        0.0 <= f.MinY() && f.MaxY() <= ExpectHeight(normalCount, cancelCount)
    {
      SheetItemInsideSheet(normalCount, cancelCount, width, k);
    }
  }

  lemma SheetItemInsideSheet(normalCount: nat, cancelCount: nat, width: real, k: nat)
    requires k < normalCount + cancelCount
    ensures var f := SheetItemRects(normalCount, cancelCount, width)[k];
      0.0 <= f.MinY() && f.MaxY() <= ExpectHeight(normalCount, cancelCount)
  {
    var f := SheetItemRects(normalCount, cancelCount, width)[k];
    if k < normalCount {
      assert f == ItemFrame(k, width);
      if k < normalCount - 1 { GroupItemsStack(normalCount, k, normalCount - 1); }
    } else {
      var j := k - normalCount;
      var cancelY := CancelContentFrame(normalCount, cancelCount, width).y;
      assert f == ItemFrame(j, width).Offset(0.0, cancelY);
      if j < cancelCount - 1 { GroupItemsStack(cancelCount, j, cancelCount - 1); }
    }
  }

  /** No point lies in two of the rectangles. */
  ghost predicate Disjoint(rects: seq<Rect>) {
    forall i, j, p :: 0 <= i < |rects| && 0 <= j < |rects| && i != j && rects[i].Contains(p) ==> !rects[j].Contains(p)
  }

  /** With the cancel group at or below the normal group, an earlier item
      ends no lower than a later one begins. */
  lemma ItemRectsStack(normalCount: nat, cancelCount: nat, width: real, cancelY: real, i: nat, j: nat)
    requires cancelY >= GroupHeight(normalCount) && i < j < normalCount + cancelCount
    ensures var r := ItemRectsAt(normalCount, cancelCount, width, cancelY);
      r[i].MaxY() <= r[j].MinY()
  {
    var r := ItemRectsAt(normalCount, cancelCount, width, cancelY);
    if j < normalCount {
      assert r[i] == ItemFrame(i, width) && r[j] == ItemFrame(j, width);
      GroupItemsStack(normalCount, i, j);
    } else if i >= normalCount {
      assert r[i] == ItemFrame(i - normalCount, width).Offset(0.0, cancelY);
      assert r[j] == ItemFrame(j - normalCount, width).Offset(0.0, cancelY);
      GroupItemsStack(cancelCount, i - normalCount, j - normalCount);
    } else {
      assert r[i] == ItemFrame(i, width) && r[j] == ItemFrame(j - normalCount, width).Offset(0.0, cancelY);
      if i < normalCount - 1 { GroupItemsStack(normalCount, i, normalCount - 1); }
    }
  }

  /** With the cancel group anywhere at or below the normal group, no two
      items overlap. */
  lemma ItemRectsDisjoint(normalCount: nat, cancelCount: nat, width: real, cancelY: real)
    requires cancelY >= GroupHeight(normalCount)
    ensures Disjoint(ItemRectsAt(normalCount, cancelCount, width, cancelY))
  {
    var r := ItemRectsAt(normalCount, cancelCount, width, cancelY);
    forall i, j, p | 0 <= i < |r| && 0 <= j < |r| && i != j && r[i].Contains(p)
      ensures !r[j].Contains(p)
    {
      if i < j {
        ItemRectsStack(normalCount, cancelCount, width, cancelY, i, j);
      } else {
        ItemRectsStack(normalCount, cancelCount, width, cancelY, j, i);
      }
    }
  }

  /** The items of a laid-out sheet never overlap. */
  lemma SheetItemsDisjoint(normalCount: nat, cancelCount: nat, width: real)
    ensures Disjoint(SheetItemRects(normalCount, cancelCount, width))
  {
    ItemRectsDisjoint(normalCount, cancelCount, width, CancelContentFrame(normalCount, cancelCount, width).y);
  }

  /** Nor do they with the cancel group placed as written, so the release
      results below hold for the layout as written too. */
  lemma SheetItemsDisjointAsWritten(normalCount: nat, cancelCount: nat, width: real)
    ensures Disjoint(SheetItemRectsAsWritten(normalCount, cancelCount, width))
  {
    ItemRectsDisjoint(normalCount, cancelCount, width, CancelContentFrameAsWritten(normalCount, cancelCount, width).y);
  }

  // ---------------------------------------------------------------------
  // Showing the sheet

  /** Where `show` puts the sheet in a container of the given size (the
      frame before the slide-in animation) and where it slides to. */
  function ShowFrames(containerWidth: real, containerHeight: real, height: real): (r: (Rect, Rect))
    requires height >= 0.0
    ensures r.0.y == containerHeight                   // starts just below the container
    ensures r.1 == r.0.(y := r.1.y)                    // only the y coordinate is animated
    ensures r.1.MaxY() == containerHeight - VerticalOffset  // ends 8 points above the bottom
    ensures r.0.x == HorizontalOffset && r.0.x + r.0.width == containerWidth - HorizontalOffset
    ensures r.0.height == height
  {
    var expireY := containerHeight - VerticalOffset - height;
    var start := Rect(HorizontalOffset, containerHeight, containerWidth - 2.0 * HorizontalOffset, height);
    (start, start.(y := expireY))
  }

  // ---------------------------------------------------------------------
  // Releasing a pan gesture

  /** The indices of the rectangles containing `p`, in increasing order. */
  function Hits(rects: seq<Rect>, p: Point): (h: seq<nat>)
    ensures forall m :: 0 <= m < |h| ==> h[m] < |rects|
    ensures forall k: nat :: k in h <==> k < |rects| && rects[k].Contains(p)
    ensures forall m, n :: 0 <= m < n < |h| ==> h[m] < h[n]
  {
    if rects == [] then []
    else
      var last := |rects| - 1;
      var prefix := Hits(rects[..last], p);
      assert forall k :: k in prefix ==> k < last;
      prefix + (if rects[last].Contains(p) then [last] else [])
  }

  /** Releasing at `p` over the items `actions` occupying `rects`: each
      item under the point, in order, runs its action (and so turns
      inactive) and then asks for the menu to be dismissed. */
  function ReleaseEffects(actions: seq<Action>, rects: seq<Rect>, p: Point): (e: seq<Effect>)
    requires |actions| == |rects|
    // at most one action and one dismiss request per item
    ensures |e| % 2 == 0 && |e| <= 2 * |actions|
  {
    if actions == [] then []
    else
      var last := |actions| - 1;
      ReleaseEffects(actions[..last], rects[..last], p)
        + (if rects[last].Contains(p) then [RunAction(actions[last].callback), RequestDismiss] else [])
  }

  /** Extending a prefix of the items by one item. */
  lemma ReleaseEffectsStep(actions: seq<Action>, rects: seq<Rect>, p: Point, k: nat)
    requires |actions| == |rects| && k < |actions|
    ensures ReleaseEffects(actions[..k + 1], rects[..k + 1], p) ==
      ReleaseEffects(actions[..k], rects[..k], p)
        + (if rects[k].Contains(p) then [RunAction(actions[k].callback), RequestDismiss] else [])
  {
    assert actions[..k + 1][..k] == actions[..k] && rects[..k + 1][..k] == rects[..k];
  }

  /** The release effects for the items `ks`: run, then dismiss, for each. */
  function RunAndDismiss(actions: seq<Action>, ks: seq<nat>): (e: seq<Effect>)
    requires forall m :: 0 <= m < |ks| ==> ks[m] < |actions|
    ensures |e| == 2 * |ks|
    ensures forall m :: 0 <= m < |ks| ==> e[2 * m] == RunAction(actions[ks[m]].callback) && e[2 * m + 1] == RequestDismiss
  {
    if ks == [] then []
    else RunAndDismiss(actions, ks[..|ks| - 1]) + [RunAction(actions[ks[|ks| - 1]].callback), RequestDismiss]
  }

  lemma {:induction false} RunAndDismissPrefix(actions: seq<Action>, prefix: seq<Action>, ks: seq<nat>)
    requires prefix <= actions
    requires forall m :: 0 <= m < |ks| ==> ks[m] < |prefix|
    ensures RunAndDismiss(actions, ks) == RunAndDismiss(prefix, ks)
  {
    if ks != [] {
      RunAndDismissPrefix(actions, prefix, ks[..|ks| - 1]);
    }
  }

  /** A release fires exactly the items containing the point, in the
      order of the items, each followed by one dismiss request. */
  lemma {:induction false} ReleaseFiresHits(actions: seq<Action>, rects: seq<Rect>, p: Point)
    requires |actions| == |rects|
    ensures ReleaseEffects(actions, rects, p) == RunAndDismiss(actions, Hits(rects, p))
  {
    if actions != [] {
      var last := |actions| - 1;
      ReleaseFiresHits(actions[..last], rects[..last], p);
      var before := Hits(rects[..last], p);
      RunAndDismissPrefix(actions, actions[..last], before);
      if rects[last].Contains(p) {
        assert Hits(rects, p) == before + [last];
        assert (before + [last])[..|before|] == before;
      } else {
        assert Hits(rects, p) == before;
      }
    }
  }

  /** Releasing outside every item fires nothing and asks for no dismissal. */
  lemma ReleaseOutsideFiresNothing(actions: seq<Action>, rects: seq<Rect>, p: Point)
    requires |actions| == |rects|
    requires forall k :: 0 <= k < |rects| ==> !rects[k].Contains(p)
    ensures ReleaseEffects(actions, rects, p) == []
  {
    ReleaseFiresHits(actions, rects, p);
    HitsNone(rects, p);
  }

  /** A point outside every rectangle hits none of them. */
  lemma {:induction false} HitsNone(rects: seq<Rect>, p: Point)
    requires forall k :: 0 <= k < |rects| ==> !rects[k].Contains(p)
    ensures Hits(rects, p) == []
  {
    if rects != [] {
      HitsNone(rects[..|rects| - 1], p);
    }
  }

  /** Among non-overlapping rectangles, a point inside rectangle `j` hits
      only that one. */
  lemma {:induction false} HitsSingle(rects: seq<Rect>, p: Point, j: nat)
    requires Disjoint(rects)
    requires j < |rects| && rects[j].Contains(p)
    ensures Hits(rects, p) == [j]
  {
    var last := |rects| - 1;
    var prefix := rects[..last];
    if j == last {
      assert forall k :: 0 <= k < |prefix| ==> !prefix[k].Contains(p);
      HitsNone(prefix, p);
    } else {
      assert Disjoint(prefix);
      HitsSingle(prefix, p, j);
      assert !rects[last].Contains(p);
    }
  }

  /** Over non-overlapping items, releasing inside item `j` runs exactly
      that item's action, then asks once for dismissal. */
  lemma ReleaseOverOneItem(actions: seq<Action>, rects: seq<Rect>, p: Point, j: nat)
    requires |actions| == |rects| && Disjoint(rects)
    requires j < |rects| && rects[j].Contains(p)
    ensures ReleaseEffects(actions, rects, p) == [RunAction(actions[j].callback), RequestDismiss]
  {
    ReleaseFiresHits(actions, rects, p);
    HitsSingle(rects, p, j);
    assert RunAndDismiss(actions, [j]) == [RunAction(actions[j].callback), RequestDismiss];
  }
}
