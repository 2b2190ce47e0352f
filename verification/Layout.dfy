/** What xf_detect_monitors makes of the screens X reports, said in their own
    coordinates: which rectangles are listed, how large the virtual screen is,
    which monitors define its edges, and the size asked for. */
module Layout {
  import opened Wire
  import opened MonitorSpec

  // ---------- rectangles ----------

  /** v is that many percent of raw, rounded down. */
  predicate Share(v: int, raw: int, percent: int) {
    100 * v <= raw * percent < 100 * (v + 1)
  }

  /** Every listed monitor has its share of its area: x and width by the width
      flag, y by the height flag, and the height by the width flag. */
  lemma EntriesScaled(s: Settings, areas: seq<Area>, k: nat)
    requires k < |Active(s, areas, |areas|)|
    ensures var m := Active(s, areas, |areas|)[k];
            var byWidth := if s.useWidth then s.percentScreen else 100;
            var byHeight := if s.useHeight then s.percentScreen else 100;
            && m.orig < |areas|
            && var a := areas[m.orig];
               && Share(m.x, a.left, byWidth) && Share(m.y, a.top, byHeight)
               && Share(m.width, a.right - a.left + 1, byWidth) && Share(m.height, a.bottom - a.top + 1, byWidth)
  {
    hide Active, IsActive;
    ActiveOnly(s, areas, |areas|);
  }

  /** The fallback entry is the current monitor, no wider than asked; its height is
      its width where it is less than the height asked for, else the latter. */
  lemma FallbackEntry(s: Settings, areas: seq<Area>, current: nat, maxWidth: u32, maxHeight: u32)
    requires Proper(areas) && areas != [] && current < |areas| && Active(s, areas, |areas|) == []
    ensures var l, a := Listing(s, areas, current, maxWidth, maxHeight), areas[current];
            && |l| == 1 && l[0].orig == current && l[0].x == a.left && l[0].y == a.top
            && l[0].width <= a.right - a.left + 1 && l[0].width <= maxWidth
            && (l[0].width == a.right - a.left + 1 || l[0].width == maxWidth)
            && l[0].height == (if a.bottom - a.top + 1 < maxHeight then a.right - a.left + 1 else maxHeight)
  {
  }

  predicate Covers(m: Monitor, sc: Screen) {
    m.x == sc.x && m.y == sc.y && m.width == sc.width && m.height == sc.height
  }

  predicate Unscaled(s: Settings) {
    s.percentScreen == 100 || (!s.useWidth && !s.useHeight)
  }

  predicate OnScreen(sc: Screen, x: int, y: int) {
    sc.x <= x < sc.x + sc.width && sc.y <= y < sc.y + sc.height
  }

  /** The screen the pointer is on, the first of several, number 0 on none; an
      unknown pointer is in the corner. */
  ghost predicate PointerScreen(ms: seq<Screen>, mouse: Option<(int, int)>, i: nat) {
    var (x, y) := if mouse.Some? then mouse.value else (0, 0);
    i < |ms|
    && if exists k :: 0 <= k < |ms| && OnScreen(ms[k], x, y)
       then OnScreen(ms[i], x, y) && forall k :: 0 <= k < i ==> !OnScreen(ms[k], x, y)
       else i == 0
  }

  predicate Wanted(s: Settings, i: nat) {
    s.numMonitorIds == 0 || i in s.monitorIds[..Min(s.numMonitorIds, |s.monitorIds|)]
  }

  lemma WantedIsActive(s: Settings, i: nat)
    ensures Wanted(s, i) <==> IsActive(s, i)
  {
    var n := Min(s.numMonitorIds, |s.monitorIds|);
    var ids := s.monitorIds[..n];
    if s.numMonitorIds > 0 && IsActive(s, i) {
      var k :| 0 <= k < s.numMonitorIds && k < |s.monitorIds| && s.monitorIds[k] == i;
      assert ids[k] == i;
    }
    if s.numMonitorIds > 0 && i in ids {
      var k :| 0 <= k < |ids| && ids[k] == i;
      assert s.monitorIds[k] == i;
    }
  }

  // ---------- the computation taken apart ----------

  predicate Detected(c: Context, q: Query)
  {
    && Proper(c.areas) && |c.areas| <= 16 && !c.settings.parentWindow && Detect(c, q).Done?
    && q.screens.Some? && 0 < |q.screens.value| <= 16
  }

  function AreasOf(c: Context, q: Query): (areas: seq<Area>)
    requires Detected(c, q)
    ensures |areas| == |q.screens.value| && Proper(areas)
  {
    Screens(c.areas, q).value
  }

  lemma AreasMean(c: Context, q: Query, i: nat)
    requires Detected(c, q) && i < |q.screens.value|
    ensures var a, sc := AreasOf(c, q)[i], q.screens.value[i];
            && a.left == sc.x && a.top == sc.y && a.right == sc.x + sc.width - 1 && a.bottom == sc.y + sc.height - 1
            && forall x, y :: a.Contains(x, y) <==> OnScreen(sc, x, y)
  {
  }

  function ListOf(c: Context, q: Query): (l: seq<Monitor>)
    requires Detected(c, q)
    ensures l != []
  {
    var areas := AreasOf(c, q);
    var p := Prepare(c, areas, q);
    Listing(p.c.settings, areas, p.current, p.width, p.height)
  }

  function FoldOf(c: Context, q: Query): Bounds
    requires Detected(c, q)
  {
    var s, l := Prepare(c, AreasOf(c, q), q).c.settings, ListOf(c, q);
    Fold(l, |l|, Percent(s.useWidth, s), Percent(s.useHeight, s))
  }

  /** The result in terms of the list and the fold: the list but for the primary
      flags, the edges and the area of the fold, and nothing else changed. */
  lemma DetectParts(c: Context, q: Query)
    requires Detected(c, q)
    ensures var p, d, l, v := Prepare(c, AreasOf(c, q), q), Detect(c, q), ListOf(c, q), FoldOf(c, q);
            var area := VirtualArea(v, p.c.settings, p.c.workArea);
            && area.Some? && d.c.area == area.value && d.c.edges == v.edges && d.c.workArea == p.c.workArea
            && d.c.settings ==
               p.c.settings.(monitorCount := |l|, layoutPdu := p.c.settings.layoutPdu || |l| > 1)
            && |d.listed| == |l| && forall k :: 0 <= k < |l| ==> d.listed[k] == l[k].(primary := d.listed[k].primary)
  {
    var areas := AreasOf(c, q);
    var p, l := Prepare(c, areas, q), ListOf(c, q);
    hide Prepare, Listing, Fold, VirtualArea, ChoosePrimary, LookupIndex, Proper;
    OnlyPrimaryChanges(l, |areas|, LookupIndex(p.c.settings, q.screenNumber));
  }

  lemma OnlyPrimaryChanges(l: seq<Monitor>, n: nat, j: nat)
    requires |l| <= n && ChoosePrimary(Allocated(l, n), |l|, j).Some?
    ensures var r := ChoosePrimary(Allocated(l, n), |l|, j).value;
            forall k :: 0 <= k < |l| ==> r[..|l|][k] == l[k].(primary := r[..|l|][k].primary)
  {
  }

  // ---------- what is listed ----------

  /** The current monitor is the one the pointer is on. */
  lemma CurrentIsPointerScreen(c: Context, q: Query)
    requires Detected(c, q)
    ensures PointerScreen(q.screens.value, q.mouse, Prepare(c, AreasOf(c, q), q).current)
  {
    var areas := AreasOf(c, q);
    var (x, y) := if q.mouse.Some? then q.mouse.value else (0, 0);
    forall i | 0 <= i < |areas| ensures areas[i].Contains(x, y) <==> OnScreen(q.screens.value[i], x, y) {
      AreasMean(c, q, i);
    }
    CurrentIsFirst(areas, x, y, 0);
    PrepareCurrent(c, areas, q, x, y);
    hide Prepare, Detect, CurrentFrom, AreasOf, Proper;
  }

  lemma PrepareCurrent(c: Context, areas: seq<Area>, q: Query, x: int, y: int)
    requires Proper(areas) && |areas| <= 16 && (x, y) == if q.mouse.Some? then q.mouse.value else (0, 0)
    ensures Prepare(c, areas, q).current == CurrentFrom(areas, x, y, 0)
  {
  }

  predicate Single(s: Settings) {
    (!s.useMultimon && !s.spanMonitors) || (s.workarea && !s.remoteApplication)
  }

  lemma RequestedMeans(s: Settings, current: nat)
    requires current <= U32_MAX
    ensures Requested(s, current) ==
              s.(monitorIds := if Single(s) && s.numMonitorIds == 0 then [current] else s.monitorIds,
                 numMonitorIds := if Single(s) then 1 else s.numMonitorIds)
  {
  }

  lemma RequestedKeeps(s: Settings, current: nat)
    requires current <= U32_MAX
    ensures var t := Requested(s, current);
            && t.percentScreen == s.percentScreen && t.useWidth == s.useWidth && t.useHeight == s.useHeight
            && t.workarea == s.workarea && t.layoutPdu == s.layoutPdu
  {
    RequestedMeans(s, current);
    hide Requested, Single;
  }

  lemma UpdatedTwice(s: Settings, ids: seq<u32>, n: u32, count: nat, layout: bool)
    ensures s.(monitorIds := ids, numMonitorIds := n).(monitorCount := count, layoutPdu := layout)
            == s.(monitorIds := ids, numMonitorIds := n, monitorCount := count, layoutPdu := layout)
  {
  }

  /** Only the request, the count and the layout flag change in the settings. In
      single-monitor mode the request is the monitor the pointer is on, or the first
      one asked for. */
  lemma DetectSettings(c: Context, q: Query) returns (i: nat)
    requires Detected(c, q)
    ensures PointerScreen(q.screens.value, q.mouse, i) && i <= U32_MAX
    ensures var s, d := c.settings, Detect(c, q);
            d.c.settings == s.(
              monitorIds := if Single(s) && s.numMonitorIds == 0 then [i] else s.monitorIds,
              numMonitorIds := if Single(s) then 1 else s.numMonitorIds,
              monitorCount := |d.listed|,
              layoutPdu := s.layoutPdu || |d.listed| > 1)
  {
    CurrentIsPointerScreen(c, q);
    DetectParts(c, q);
    i := Prepare(c, AreasOf(c, q), q).current;
    PrepareRequests(c, AreasOf(c, q), q);
    var was := c.settings;
    RequestedMeans(was, i);
    RequestedKeeps(was, i);
    hide Detect, Prepare, PointerScreen, Detected, VirtualArea, Requested, Single, AreasOf, ListOf, FoldOf;
    UpdatedTwice(was, if Single(was) && was.numMonitorIds == 0 then [i] else was.monitorIds,
                 if Single(was) then 1 else was.numMonitorIds,
                 |Detect(c, q).listed|, was.layoutPdu || |Detect(c, q).listed| > 1);
  }

  /** A list of exactly the wanted screens, each with its own rectangle, in order. */
  ghost predicate ListsWanted(l: seq<Monitor>, ms: seq<Screen>, s: Settings) {
    && (forall k :: 0 <= k < |l| ==> l[k].orig < |ms| && Wanted(s, l[k].orig) && Covers(l[k], ms[l[k].orig]))
    && (forall j, k :: 0 <= j < k < |l| ==> l[j].orig < l[k].orig)
    && (forall i :: 0 <= i < |ms| && Wanted(s, i) ==> exists k :: 0 <= k < |l| && l[k].orig == i)
  }

  ghost predicate SomeWanted(ms: seq<Screen>, s: Settings) {
    exists i :: 0 <= i < |ms| && Wanted(s, i)
  }

  /** Without scaling: the listed monitors are exactly the wanted screens; when none
      is wanted, the screen of the pointer is listed alone. */
  lemma DetectLists(c: Context, q: Query)
    requires Detected(c, q) && Unscaled(c.settings)
    ensures var d, ms := Detect(c, q), q.screens.value;
            if SomeWanted(ms, d.c.settings) then ListsWanted(d.listed, ms, d.c.settings)
            else |d.listed| == 1 && PointerScreen(ms, q.mouse, d.listed[0].orig)
  {
    var areas := AreasOf(c, q);
    var s := Prepare(c, areas, q).c.settings;
    hide Detect, Prepare, Listing, Active, Unscaled, Wanted, SomeWanted, ListsWanted, PointerScreen;
    if Active(s, areas, |areas|) != [] {
      ActiveListed(c, q);
    } else {
      NoneListed(c, q);
    }
  }

  /** Wanted by the result's settings is active by those the list was made with. */
  lemma WantedScreens(c: Context, q: Query)
    requires Detected(c, q)
    ensures var s, t := Prepare(c, AreasOf(c, q), q).c.settings, Detect(c, q).c.settings;
            forall i: nat :: Wanted(t, i) <==> IsActive(s, i)
  {
    DetectParts(c, q);
    var s, t := Prepare(c, AreasOf(c, q), q).c.settings, Detect(c, q).c.settings;
    assert s.numMonitorIds == t.numMonitorIds && s.monitorIds == t.monitorIds;
    hide Detect, Prepare, AreasOf, ListOf, FoldOf, VirtualArea;
    forall i: nat ensures Wanted(t, i) <==> IsActive(s, i) {
      WantedIsActive(t, i);
      SameRequest(s, t, i);
    }
  }

  lemma ActiveListed(c: Context, q: Query)
    requires Detected(c, q) && Unscaled(c.settings)
    requires Active(Prepare(c, AreasOf(c, q), q).c.settings, AreasOf(c, q), |AreasOf(c, q)|) != []
    ensures var d, ms := Detect(c, q), q.screens.value;
            SomeWanted(ms, d.c.settings) && ListsWanted(d.listed, ms, d.c.settings)
  {
    var d, ms := Detect(c, q), q.screens.value;
    var areas, l := AreasOf(c, q), ListOf(c, q);
    var s := Prepare(c, areas, q).c.settings;
    WantedScreens(c, q);
    DetectParts(c, q);
    ListedIsActive(c, q);
    forall k | 0 <= k < |l| ensures l[k].orig < |ms| && Covers(l[k], ms[l[k].orig]) {
      CoversScreen(c, q, k);
    }
    hide Detect, Prepare, Active, Listing, IsActive, AreasOf, ListOf, FoldOf, Covers, Detected, Wanted, Unscaled;
    hide VirtualArea, ListsWanted, SomeWanted;
    ActiveLists(d.listed, ms, s, d.c.settings, areas);
  }

  lemma ActiveLists(listed: seq<Monitor>, ms: seq<Screen>, s: Settings, t: Settings, areas: seq<Area>)
    requires |areas| == |ms| && (forall i: nat :: Wanted(t, i) <==> IsActive(s, i))
    requires var l := Active(s, areas, |areas|);
             && l != [] && |listed| == |l|
             && (forall k :: 0 <= k < |l| ==> l[k].orig < |ms| && Covers(l[k], ms[l[k].orig]))
             && forall k :: 0 <= k < |l| ==> listed[k] == l[k].(primary := listed[k].primary)
    ensures SomeWanted(ms, t) && ListsWanted(listed, ms, t)
  {
    hide Active, IsActive, Covers, Wanted;
    var l := Active(s, areas, |areas|);
    ActiveIsFilter(s, areas);
    assert forall k :: 0 <= k < |l| ==> listed[k].orig == l[k].orig;
    forall k | 0 <= k < |l| ensures Covers(listed[k], ms[l[k].orig]) {
      CoversAnyway(l[k], listed[k], ms[l[k].orig]);
    }
    assert IsActive(s, l[0].orig) && Wanted(t, l[0].orig);
    forall i | 0 <= i < |ms| && Wanted(t, i) ensures exists k :: 0 <= k < |listed| && listed[k].orig == i {
      var k := |Active(s, areas, i)|;
      assert listed[k].orig == i;
    }
  }

  lemma CoversAnyway(m: Monitor, n: Monitor, sc: Screen)
    requires Covers(m, sc) && n == m.(primary := n.primary)
    ensures Covers(n, sc)
  {
  }

  lemma NoneListed(c: Context, q: Query)
    requires Detected(c, q)
    requires Active(Prepare(c, AreasOf(c, q), q).c.settings, AreasOf(c, q), |AreasOf(c, q)|) == []
    ensures var d, ms := Detect(c, q), q.screens.value;
            && !SomeWanted(ms, d.c.settings)
            && |d.listed| == 1 && PointerScreen(ms, q.mouse, d.listed[0].orig)
  {
    var areas := AreasOf(c, q);
    var p := Prepare(c, areas, q);
    WantedScreens(c, q);
    DetectParts(c, q);
    CurrentIsPointerScreen(c, q);
    ActiveIsFilter(p.c.settings, areas);
    FallbackEntry(p.c.settings, areas, p.current, p.width, p.height);
    hide Detect, Prepare, Active, IsActive, PointerScreen, Detected, Wanted, FoldOf, AreasOf, VirtualArea;
  }

  lemma SettingsUnscaled(c: Context, q: Query)
    requires Detected(c, q)
    ensures var s := Prepare(c, AreasOf(c, q), q).c.settings;
            && (Unscaled(c.settings) <==> Unscaled(s)) && s.workarea == c.settings.workarea
            && (Unscaled(s) ==> Percent(s.useWidth, s) == 100 && Percent(s.useHeight, s) == 100)
  {
    PrepareRequests(c, AreasOf(c, q), q);
    RequestedKeeps(c.settings, Prepare(c, AreasOf(c, q), q).current);
    hide Prepare, Requested, Detected, AreasOf;
  }

  lemma SameRequest(s: Settings, t: Settings, i: nat)
    requires s.numMonitorIds == t.numMonitorIds && s.monitorIds == t.monitorIds
    ensures IsActive(s, i) <==> IsActive(t, i)
  {
  }

  lemma ListedIsActive(c: Context, q: Query)
    requires Detected(c, q)
    ensures var areas := AreasOf(c, q);
            var active := Active(Prepare(c, areas, q).c.settings, areas, |areas|);
            active != [] ==> ListOf(c, q) == active
  {
    hide Prepare, Active, AreasOf;
  }

  lemma CoversScreen(c: Context, q: Query, k: nat)
    requires Detected(c, q) && Unscaled(c.settings) && k < |ListOf(c, q)|
    requires ListOf(c, q) == Active(Prepare(c, AreasOf(c, q), q).c.settings, AreasOf(c, q), |AreasOf(c, q)|)
    ensures var m := ListOf(c, q)[k];
            m.orig < |q.screens.value| && Covers(m, q.screens.value[m.orig])
  {
    var areas := AreasOf(c, q);
    var s := Prepare(c, areas, q).c.settings;
    SettingsUnscaled(c, q);
    EntriesScaled(s, areas, k);
    AreasMean(c, q, ListOf(c, q)[k].orig);
    hide Prepare, Active, AreasOf, ListOf, Detected;
  }

  // ---------- the virtual screen ----------

  function SideOf(sc: Screen, side: Side): int {
    match side
    case Left => sc.x
    case Top => sc.y
    case Right => sc.x + sc.width
    case Bottom => sc.y + sc.height
  }

  /** The first wanted screen that reaches furthest out on a side. */
  predicate Outermost(ms: seq<Screen>, s: Settings, i: nat, side: Side) {
    && i < |ms| && Wanted(s, i)
    && (forall k :: 0 <= k < |ms| && Wanted(s, k) ==>
          Inward(side, SideOf(ms[i], side)) <= Inward(side, SideOf(ms[k], side)))
    && (forall k :: 0 <= k < i && Wanted(s, k) ==>
          Inward(side, SideOf(ms[i], side)) < Inward(side, SideOf(ms[k], side)))
  }

  /** The fold's side is that screen's side, and the screen defines the edge. */
  lemma DetectSide(c: Context, q: Query, side: Side) returns (i: nat)
    requires Detected(c, q) && Unscaled(c.settings) && SomeWanted(q.screens.value, Detect(c, q).c.settings)
    ensures Outermost(q.screens.value, Detect(c, q).c.settings, i, side)
    ensures Corner(FoldOf(c, q), side) == SideOf(q.screens.value[i], side)
    ensures EdgeOf(Detect(c, q).c.edges, side) == i
  {
    var d, ms, l := Detect(c, q), q.screens.value, ListOf(c, q);
    DetectLists(c, q);
    DetectParts(c, q);
    SettingsUnscaled(c, q);
    hide Detect, Prepare, AreasOf, ListOf, VirtualArea, Wanted, Outermost, Fold, Corner, EdgeOf;
    var k := UnscaledFold(l, |l|, side);
    i := d.listed[k].orig;
    var v := FoldOf(c, q);
    assert v == Fold(l, |l|, 100, 100);
    assert Bound(v, side) == Reach(l[k], side) && Corner(v, side) == Coordinate(l[k], side) by {
      SameInward(side, Corner(v, side), Coordinate(l[k], side));
    }
    forall j | 0 <= j < |l| ensures Coordinate(l[j], side) == SideOf(ms[d.listed[j].orig], side) {
      CoversSide(d.listed[j], ms[d.listed[j].orig], side);
      SameCoordinate(l[j], d.listed[j], side);
    }
    OutermostOf(l, d.listed, ms, d.c.settings, k, side);
  }

  lemma SameInward(side: Side, x: int, y: int)
    ensures Inward(side, x) == Inward(side, y) <==> x == y
  {
  }

  lemma CoversSide(m: Monitor, sc: Screen, side: Side)
    requires Covers(m, sc)
    ensures Coordinate(m, side) == SideOf(sc, side)
  {
  }

  lemma SameCoordinate(m: Monitor, n: Monitor, side: Side)
    requires n == m.(primary := n.primary)
    ensures Coordinate(n, side) == Coordinate(m, side)
  {
  }

  lemma OutermostOf(l: seq<Monitor>, listed: seq<Monitor>, ms: seq<Screen>, s: Settings, k: nat, side: Side)
    requires k < |l| == |listed| && ListsWanted(listed, ms, s)
    requires forall j :: 0 <= j < |l| ==> Coordinate(l[j], side) == SideOf(ms[listed[j].orig], side)
    requires forall j :: 0 <= j < |l| ==> Reach(l[k], side) <= Reach(l[j], side)
    requires forall j :: 0 <= j < k ==> Reach(l[k], side) < Reach(l[j], side)
    ensures Outermost(ms, s, listed[k].orig, side)
  {
    hide Coordinate, SideOf, Inward, Wanted, Covers;
    var i := listed[k].orig;
    forall w | 0 <= w < |ms| && Wanted(s, w)
      ensures Inward(side, SideOf(ms[i], side)) <= Inward(side, SideOf(ms[w], side))
      ensures w < i ==> Inward(side, SideOf(ms[i], side)) < Inward(side, SideOf(ms[w], side))
    {
      var j :| 0 <= j < |listed| && listed[j].orig == w;
      assert Reach(l[j], side) == Inward(side, SideOf(ms[w], side));
      assert Reach(l[k], side) == Inward(side, SideOf(ms[i], side));
    }
  }

  /** Without scaling: the stored virtual screen spans, on each axis, from the first
      wanted screen furthest out on one side to that on the other, and these two
      define its edges. A requested work area replaces the rows. */
  lemma DetectExtent(c: Context, q: Query, near: Side, far: Side) returns (i: nat, j: nat)
    requires Detected(c, q) && Unscaled(c.settings) && SomeWanted(q.screens.value, Detect(c, q).c.settings)
    requires (near == Left && far == Right) || (near == Top && far == Bottom)
    ensures var d, ms := Detect(c, q), q.screens.value;
            && Outermost(ms, d.c.settings, i, near) && Outermost(ms, d.c.settings, j, far)
            && EdgeOf(d.c.edges, near) == i && EdgeOf(d.c.edges, far) == j
            && (near == Left ==>
                  d.c.area.left == 0 && d.c.area.right + 1 == ms[j].x + ms[j].width - ms[i].x)
            && (near == Top && !c.settings.workarea ==>
                  d.c.area.top == 0 && d.c.area.bottom + 1 == ms[j].y + ms[j].height - ms[i].y)
            && (near == Top && c.settings.workarea ==>
                  d.c.area.top == d.c.workArea.y && d.c.area.bottom + 1 == d.c.workArea.y + d.c.workArea.height)
  {
    i := DetectSide(c, q, near);
    j := DetectSide(c, q, far);
    DetectParts(c, q);
    SettingsUnscaled(c, q);
    hide Detect, Prepare, AreasOf, ListOf, FoldOf, Outermost, EdgeOf, Unscaled, SomeWanted;
  }

  // ---------- the size ----------

  /** The size that results: what was asked for, cut to the virtual screen. A
      fullscreen client asks for the whole screen, one on the work area for that,
      one with a percentage for its share of the monitor the pointer is on, one
      with neither for its desktop size. */
  lemma DetectSize(c: Context, q: Query) returns (w: u32, h: u32, i: nat)
    requires Detected(c, q)
    ensures PointerScreen(q.screens.value, q.mouse, i)
    ensures var s, d, sc := c.settings, Detect(c, q), q.screens.value[i];
            && d.maxWidth == Min(w, d.c.area.right - d.c.area.left + 1)
            && d.maxHeight == Min(h, d.c.area.bottom - d.c.area.top + 1)
            && if s.fullscreen then w == q.screenWidth && h == q.screenHeight
               else if s.workarea then w == d.c.workArea.width && h == d.c.workArea.height
               else if s.percentScreen == 0 then w == s.desktopWidth && h == s.desktopHeight
               else s.percentScreen <= 100 ==>
                      && Share(w, sc.width, if s.useWidth then s.percentScreen else 100)
                      && Share(h, sc.height, if s.useHeight then s.percentScreen else 100)
  {
    var areas := AreasOf(c, q);
    var p := Prepare(c, areas, q);
    i := p.current;
    w, h := p.width, p.height;
    CurrentIsPointerScreen(c, q);
    PrepareRequests(c, areas, q);
    DetectCuts(c, q);
    AreasMean(c, q, i);
    PrepareAsks(c, areas, q);
    DetectParts(c, q);
    hide Prepare, Detect, AreasOf, ListOf, FoldOf, PointerScreen, Requested, VirtualArea, Detected;
  }

  lemma DetectCuts(c: Context, q: Query)
    requires Detected(c, q)
    ensures var d, p := Detect(c, q), Prepare(c, AreasOf(c, q), q);
            && d.maxWidth == Min(p.width, d.c.area.right - d.c.area.left + 1)
            && d.maxHeight == Min(p.height, d.c.area.bottom - d.c.area.top + 1)
  {
    hide Prepare, Listing, Fold, VirtualArea, ChoosePrimary, LookupIndex, Proper, Min;
  }

  lemma PrepareAsks(c: Context, areas: seq<Area>, q: Query)
    requires Proper(areas) && areas != [] && |areas| <= 16
    ensures var s, p := c.settings, Prepare(c, areas, q);
            var a := areas[p.current];
            if s.fullscreen then p.width == q.screenWidth && p.height == q.screenHeight
            else if s.workarea then p.width == p.c.workArea.width && p.height == p.c.workArea.height
            else if s.percentScreen == 0 then p.width == s.desktopWidth && p.height == s.desktopHeight
            else s.percentScreen <= 100 ==>
                   && Share(p.width, a.right - a.left + 1, if s.useWidth then s.percentScreen else 100)
                   && Share(p.height, a.bottom - a.top + 1, if s.useHeight then s.percentScreen else 100)
  {
    var (x, y) := if q.mouse.Some? then q.mouse.value else (0, 0);
    var current := CurrentFrom(areas, x, y, 0);
    var s := Requested(c.settings, current);
    RequestedMeans(c.settings, current);
    hide Requested, CurrentFrom, WorkAreaOf, Single;
    if !s.fullscreen && !s.workarea && 1 <= s.percentScreen <= 100 {
      AskedWithinMonitor(s, areas, current, WorkAreaOf(s, areas, current, q), q);
    }
  }

  // ---------- the other ways through ----------

  /** Embedded in another window nothing is looked at; with no monitors, or too
      many, nothing is listed, and the size is the one asked for. */
  lemma DetectNothing(c: Context, q: Query)
    requires Proper(c.areas) && |c.areas| <= 16
    ensures c.settings.parentWindow ==>
              && Detect(c, q).Done? && Detect(c, q).listed == []
              && Detect(c, q).maxWidth == c.settings.desktopWidth && Detect(c, q).maxHeight == c.settings.desktopHeight
              && Detect(c, q).c.workArea == WorkArea(0, 0, c.settings.desktopWidth, c.settings.desktopHeight)
              && Detect(c, q).c.settings == c.settings && Detect(c, q).c.areas == c.areas
    ensures !c.settings.parentWindow && q.screens.Some? && (|q.screens.value| == 0 || |q.screens.value| > 16) ==>
              var s, d := c.settings, Detect(c, q);
              && d.Done? && d.listed == [] && d.c.areas == [] && d.c.settings.monitorCount == 0
              && if s.fullscreen then d.maxWidth == q.screenWidth && d.maxHeight == q.screenHeight
                 else if s.workarea then d.maxWidth == d.c.workArea.width && d.maxHeight == d.c.workArea.height
                 else if s.percentScreen == 0 then d.maxWidth == s.desktopWidth && d.maxHeight == s.desktopHeight
                 else && ShareOrWrap(d.maxWidth, d.c.workArea.width, s.useWidth, s)
                      && ShareOrWrap(d.maxHeight, d.c.workArea.height, s.useHeight, s)
  {
    if !c.settings.parentWindow && q.screens.Some? && (|q.screens.value| == 0 || |q.screens.value| > 16) {
      NoScreens(c.areas, q);
      PrepareAsksEmpty(c, q);
    }
    hide Prepare, Arrange, Proper, Screens, ShareOrWrap;
  }

  lemma NoScreens(areas: seq<Area>, q: Query)
    requires q.screens.Some? && (|q.screens.value| == 0 || |q.screens.value| > 16)
    ensures Screens(areas, q) == Some([])
  {
    if |q.screens.value| == 0 {
      assert Screens(areas, q).value == [];
    }
  }

  /** The areas a client kept, as X would report them. */
  function Reported(areas: seq<Area>): seq<Screen>
    requires Proper(areas)
  {
    seq(|areas|, i requires 0 <= i < |areas| =>
      Screen(areas[i].left, areas[i].top, areas[i].right - areas[i].left + 1, areas[i].bottom - areas[i].top + 1))
  }

  /** When no extension works, everything is as if X had reported the monitors of
      the call before once more. */
  lemma DetectWithoutExtension(c: Context, q: Query)
    requires Proper(c.areas) && |c.areas| <= 16 && q.screens.None?
    ensures Detect(c, q) == Detect(c, q.(screens := Some(Reported(c.areas))))
  {
    var again := q.(screens := Some(Reported(c.areas)));
    ReportedAgain(c.areas, again);
    SamePreparation(c, c.areas, q, again);
    hide Prepare, Listing, Fold, VirtualArea, ChoosePrimary, LookupIndex, Proper, Screens, Reported;
    assert Screens(c.areas, q) == Some(c.areas) by {
      NoExtension(c.areas, q);
    }
  }

  lemma NoExtension(areas: seq<Area>, q: Query)
    requires q.screens.None?
    ensures Screens(areas, q) == Some(areas)
  {
  }

  lemma ReportedAgain(areas: seq<Area>, q: Query)
    requires Proper(areas) && |areas| <= 16 && q.screens == Some(Reported(areas))
    ensures Screens(areas, q) == Some(areas)
  {
    var ms := q.screens.value;
    forall i | 0 <= i < |ms| ensures Castable(ms[i]) && ToArea(ms[i]) == areas[i] {
    }
    assert Screens(areas, q).value == areas;
  }

  lemma SamePreparation(c: Context, areas: seq<Area>, q: Query, r: Query)
    requires Proper(areas) && |areas| <= 16 && r == q.(screens := r.screens)
    ensures Prepare(c, areas, r) == Prepare(c, areas, q)
  {
    hide CurrentFrom, Requested;
  }

  /** That size, or its percentage as long as the 32-bit product does not wrap. */
  predicate ShareOrWrap(v: int, raw: int, flag: bool, s: Settings) {
    if !flag then v == raw else raw * s.percentScreen <= U32_MAX ==> Share(v, raw, s.percentScreen)
  }

  lemma PrepareAsksEmpty(c: Context, q: Query)
    ensures var s, p := c.settings, Prepare(c, [], q);
            if s.fullscreen then p.width == q.screenWidth && p.height == q.screenHeight
            else if s.workarea then p.width == p.c.workArea.width && p.height == p.c.workArea.height
            else if s.percentScreen == 0 then p.width == s.desktopWidth && p.height == s.desktopHeight
            else && ShareOrWrap(p.width, p.c.workArea.width, s.useWidth, s)
                 && ShareOrWrap(p.height, p.c.workArea.height, s.useHeight, s)
  {
    var (x, y) := if q.mouse.Some? then q.mouse.value else (0, 0);
    var current := CurrentFrom([], x, y, 0);
    var s := Requested(c.settings, current);
    RequestedMeans(c.settings, current);
    hide Requested, CurrentFrom, WorkAreaOf, Single;
    var wa := WorkAreaOf(s, [], current, q);
    ScaledSizeExact(wa.width, s);
    ScaledSizeExact(wa.height, s);
  }

  // ---------- the fallback for a primary monitor ----------

  /** The entry the fallback marks: the one looked up, when it is listed and not in
      the corner, else the first in the corner. */
  predicate Marked(l: seq<Monitor>, j: nat, k: nat)
    requires k < |l|
  {
    if j < |l| && (l[j].x != 0 || l[j].y != 0) then k == j
    else l[k].x == 0 && l[k].y == 0 && forall i :: 0 <= i < k ==> l[i].x != 0 || l[i].y != 0
  }

  /** With no primary monitor yet, the fallback marks exactly that entry, changes
      nothing else, and fails to mark one only when it looks behind the list and
      none is in the corner. */
  lemma FallbackMarks(l: seq<Monitor>, n: nat, j: nat)
    requires |l| <= n && !HasPrimary(l) && j <= n
    ensures var r := ChoosePrimary(Allocated(l, n), |l|, j);
            && r.Some?
            && (forall k :: 0 <= k < |l| ==> r.value[k] == l[k].(primary := Marked(l, j, k)))
            && (HasPrimary(r.value[..|l|]) <==> j < |l| || exists k :: 0 <= k < |l| && l[k].x == 0 && l[k].y == 0)
  {
    var a := Allocated(l, n);
    assert a[..|l|] == l && forall k :: 0 <= k < |l| ==> a[k] == l[k] && !l[k].primary;
    FirstInCorner(a, |l|, 0);
    var r := ChoosePrimary(a, |l|, j).value;
    var first := FirstAtOrigin(a, |l|, 0);
    forall k | 0 <= k < |l| ensures r[k] == l[k].(primary := Marked(l, j, k)) && r[..|l|][k] == r[k] {
    }
    if j < |l| && !AtOrigin(l[j]) {
      assert r[..|l|][j].primary;
    } else if first < |l| {
      assert r[..|l|][first].primary;
    }
  }

  lemma {:induction false} FirstInCorner(l: seq<Monitor>, n: nat, i: nat)
    requires i <= n <= |l|
    ensures var k := FirstAtOrigin(l, n, i);
            forall j :: i <= j < k ==> !AtOrigin(l[j])
    decreases n - i
  {
    if i < n && !AtOrigin(l[i]) {
      FirstInCorner(l, n, i + 1);
    }
  }

  /** Which listed monitors are primary: the first one requested, when it exists and
      is wanted; otherwise the one the fallback marks. */
  lemma DetectPrimary(c: Context, q: Query)
    requires Detected(c, q)
    ensures var d := Detect(c, q);
            var t := d.c.settings;
            var first := if t.monitorIds == [] then 0 else t.monitorIds[0];
            forall k :: 0 <= k < |d.listed| ==>
              (d.listed[k].primary <==>
                if first < |q.screens.value| && Wanted(t, first) then d.listed[k].orig == first
                else Marked(d.listed, if t.numMonitorIds == 0 then q.screenNumber else first, k))
  {
    var areas := AreasOf(c, q);
    var p, l, d := Prepare(c, areas, q), ListOf(c, q), Detect(c, q);
    DetectParts(c, q);
    WantedScreens(c, q);
    DetectChooses(c, q);
    ListingUnique(p.c.settings, areas, p.current, p.width, p.height);
    ListingFlags(p.c.settings, areas, p.current, p.width, p.height);
    var j := LookupIndex(p.c.settings, q.screenNumber);
    ChooseUnique(l, |areas|, j);
    if !HasPrimary(l) {
      FallbackMarks(l, |areas|, j);
      SameMarks(l, d.listed, j);
    }
    assert d.c.settings.monitorIds == p.c.settings.monitorIds;
    assert d.c.settings.numMonitorIds == p.c.settings.numMonitorIds;
    hide Detect, Prepare, Listing, AreasOf, ListOf, FoldOf, VirtualArea, Wanted, IsActive, Marked, ChoosePrimary;
  }

  lemma DetectChooses(c: Context, q: Query)
    requires Detected(c, q)
    ensures var areas, p, l := AreasOf(c, q), Prepare(c, AreasOf(c, q), q), ListOf(c, q);
            var r := ChoosePrimary(Allocated(l, |areas|), |l|, LookupIndex(p.c.settings, q.screenNumber));
            r.Some? && Detect(c, q).listed == r.value[..|l|]
  {
    hide Prepare, Listing, Fold, VirtualArea, ChoosePrimary, LookupIndex, Proper;
  }

  /** With a primary among the listed ones, exactly the first requested is. */
  lemma ListingFlags(s: Settings, areas: seq<Area>, current: nat, maxWidth: u32, maxHeight: u32)
    requires areas != [] && current < |areas|
    ensures var l := Listing(s, areas, current, maxWidth, maxHeight);
            HasPrimary(l) ==> forall k :: 0 <= k < |l| ==> (l[k].primary <==> l[k].orig == FirstId(s))
  {
    hide Active, IsActive;
    ActiveOnly(s, areas, |areas|);
    if Active(s, areas, |areas|) == [] {
      FallbackNotPrimary(areas[current], current, maxWidth, maxHeight);
    }
  }

  lemma SameMarks(l: seq<Monitor>, m: seq<Monitor>, j: nat)
    requires |l| == |m| && forall k :: 0 <= k < |l| ==> m[k] == l[k].(primary := m[k].primary)
    ensures forall k :: 0 <= k < |l| ==> (Marked(l, j, k) <==> Marked(m, j, k))
  {
    assert forall k :: 0 <= k < |l| ==> m[k].x == l[k].x && m[k].y == l[k].y;
  }
}
