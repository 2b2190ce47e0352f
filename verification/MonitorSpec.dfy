/** The integer computation inside xf_detect_monitors as functions of settings
    and of what X reports, and what holds of it for every input. */
module MonitorSpec {
  import opened Wire

  /** A rectangle with its last column and row, in 16 bits. */
  datatype Area = Area(left: u16, top: u16, right: u16, bottom: u16) {
    function Width(): int { right as int - left as int + 1 }
    function Height(): int { bottom as int - top as int + 1 }
    predicate Contains(x: int, y: int) { left <= x <= right && top <= y <= bottom }
  }

  datatype WorkArea = WorkArea(x: int, y: int, width: u32, height: u32)

  datatype Monitor = Monitor(x: int, y: int, width: int, height: int, orig: nat, primary: bool)

  /** An entry of a freshly allocated array. */
  const ZERO := Monitor(0, 0, 0, 0, 0, false)

  datatype Settings = Settings(
    desktopWidth: u32, desktopHeight: u32, parentWindow: bool, useMultimon: bool, spanMonitors: bool,
    workarea: bool, remoteApplication: bool, fullscreen: bool,
    percentScreen: u32, useWidth: bool, useHeight: bool,
    numMonitorIds: u32, monitorIds: seq<u32>, monitorCount: nat, layoutPdu: bool)

  /** A monitor as X reports it; X reports no negative sizes. */
  datatype Screen = Screen(x: int, y: int, width: nat, height: nat)

  /** The answers of X: the monitors unless no extension works, the pointer, the
      work area if the window manager has one, the screen. */
  datatype Query = Query(
    screens: Option<seq<Screen>>, mouse: Option<(int, int)>, workArea: Option<WorkArea>,
    screenWidth: u32, screenHeight: u32, screenNumber: u32)

  datatype Edges = Edges(left: int, top: int, right: int, bottom: int)

  // ---------- the monitors X reports ----------

  predicate Fits16(v: int) {
    0 <= v < 0x1_0000
  }

  predicate Castable(m: Screen) {
    Fits16(m.x) && Fits16(m.y) && Fits16(m.x + m.width - 1) && Fits16(m.y + m.height - 1)
  }

  function ToArea(m: Screen): Area
    requires Castable(m)
  {
    Area(m.x, m.y, m.x + m.width - 1, m.y + m.height - 1)
  }

  predicate Proper(areas: seq<Area>) {
    forall i :: 0 <= i < |areas| ==> areas[i].Width() >= 0 && areas[i].Height() >= 0
  }

  /** The first monitor from index i on that holds the pointer, else 0. */
  function CurrentFrom(areas: seq<Area>, x: int, y: int, i: nat): (c: nat)
    requires i <= |areas|
    ensures areas != [] ==> c < |areas|
    ensures areas == [] ==> c == 0
    decreases |areas| - i
  {
    if i == |areas| then 0 else if areas[i].Contains(x, y) then i else CurrentFrom(areas, x, y, i + 1)
  }

  lemma {:induction false} CurrentIsFirst(areas: seq<Area>, x: int, y: int, i: nat)
    requires i <= |areas|
    ensures var c := CurrentFrom(areas, x, y, i);
            if exists k :: i <= k < |areas| && areas[k].Contains(x, y)
            then i <= c < |areas| && areas[c].Contains(x, y) && forall k :: i <= k < c ==> !areas[k].Contains(x, y)
            else c == 0
    decreases |areas| - i
  {
    if i < |areas| && !areas[i].Contains(x, y) {
      CurrentIsFirst(areas, x, y, i + 1);
    }
  }

  // ---------- which monitors are active ----------

  predicate SingleMonitor(s: Settings) {
    (!s.useMultimon && !s.spanMonitors) || (s.workarea && !s.remoteApplication)
  }

  /** The request as it stands after single-monitor mode has its say. */
  function Requested(s: Settings, current: nat): Settings
    requires current <= U32_MAX
  {
    if !SingleMonitor(s) then s
    else if s.numMonitorIds == 0 then s.(monitorIds := [current], numMonitorIds := 1)
    else s.(numMonitorIds := 1)
  }

  predicate IsActive(s: Settings, id: nat) {
    s.numMonitorIds == 0 || exists k :: 0 <= k < s.numMonitorIds && k < |s.monitorIds| && s.monitorIds[k] == id
  }

  function FirstId(s: Settings): u32 {
    if s.monitorIds == [] then 0 else s.monitorIds[0]
  }

  /** Percentages as the code applies them: to widths, x and also heights by the
      width flag, to y by the height flag. */
  function Percent(flag: bool, s: Settings): u32 {
    if flag then s.percentScreen else 100
  }

  function Listed(s: Settings, a: Area, i: nat): (m: Monitor)
    ensures m.orig == i && (m.primary <==> i == FirstId(s))
  {
    Monitor(a.left * Percent(s.useWidth, s) / 100, a.top * Percent(s.useHeight, s) / 100,
            a.Width() * Percent(s.useWidth, s) / 100, a.Height() * Percent(s.useWidth, s) / 100,
            i, i == FirstId(s))
  }

  /** The list after looking at the first i monitors. */
  function Active(s: Settings, areas: seq<Area>, i: nat): (l: seq<Monitor>)
    requires i <= |areas|
    ensures |l| <= i
  {
    if i == 0 then []
    else Active(s, areas, i - 1) + if IsActive(s, i - 1) then [Listed(s, areas[i - 1], i - 1)] else []
  }

  /** The current monitor alone. Where it is less than the height asked for, its
      height is replaced by its width. */
  function Fallback(a: Area, current: nat, maxWidth: u32, maxHeight: u32): Monitor {
    Monitor(a.left, a.top,
            if a.Width() < 0 || a.Width() < maxWidth then a.Width() else maxWidth,
            if a.Height() < 0 || a.Height() < maxHeight then a.Width() else maxHeight,
            current, false)
  }

  function Listing(s: Settings, areas: seq<Area>, current: nat, maxWidth: u32, maxHeight: u32): (l: seq<Monitor>)
    requires areas != [] ==> current < |areas|
    ensures |l| <= |areas| && (l == [] <==> areas == [])
  {
    var l := Active(s, areas, |areas|);
    if l == [] && areas != [] then [Fallback(areas[current], current, maxWidth, maxHeight)]
    else if areas == [] then [] else l
  }

  /** Every entry is that of an active monitor, as listed. */
  ghost predicate OnlyActive(l: seq<Monitor>, s: Settings, areas: seq<Area>) {
    forall k :: 0 <= k < |l| ==>
      l[k].orig < |areas| && IsActive(s, l[k].orig) && l[k] == Listed(s, areas[l[k].orig], l[k].orig)
  }

  predicate InMonitorOrder(l: seq<Monitor>) {
    forall j, k :: 0 <= j < k < |l| ==> l[j].orig < l[k].orig
  }

  /** Each active monitor below i has an entry, behind those before it. */
  ghost predicate AllActive(l: seq<Monitor>, s: Settings, areas: seq<Area>, i: nat)
    requires i <= |areas|
  {
    forall m: nat :: m < i && IsActive(s, m) ==>
      |Active(s, areas, m)| < |l| && l[|Active(s, areas, m)|].orig == m
  }

  lemma {:induction false} ActiveOnly(s: Settings, areas: seq<Area>, i: nat)
    requires i <= |areas|
    ensures var l := Active(s, areas, i);
            OnlyActive(l, s, areas) && InMonitorOrder(l) && forall k :: 0 <= k < |l| ==> l[k].orig < i
  {
    hide Listed, IsActive;
    if i > 0 {
      ActiveOnly(s, areas, i - 1);
      var before, l := Active(s, areas, i - 1), Active(s, areas, i);
      assert l == before || l == before + [Listed(s, areas[i - 1], i - 1)];
    }
  }

  lemma {:induction false} ActiveAll(s: Settings, areas: seq<Area>, i: nat)
    requires i <= |areas|
    ensures AllActive(Active(s, areas, i), s, areas, i)
  {
    hide Listed, IsActive;
    if i > 0 {
      ActiveAll(s, areas, i - 1);
      var before, l := Active(s, areas, i - 1), Active(s, areas, i);
      forall m: nat | m < i && IsActive(s, m)
        ensures |Active(s, areas, m)| < |l| && l[|Active(s, areas, m)|].orig == m
      {
        assert l[..|before|] == before;
        assert m < i - 1 ==> before[|Active(s, areas, m)|].orig == m;
      }
    }
  }

  /** The list is exactly the filter of the monitors by the request, in order,
      and fits the array allocated for it. */
  lemma ActiveIsFilter(s: Settings, areas: seq<Area>)
    ensures var l := Active(s, areas, |areas|);
            && OnlyActive(l, s, areas) && InMonitorOrder(l) && AllActive(l, s, areas, |areas|)
            && |l| < |areas| + 1
  {
    ActiveOnly(s, areas, |areas|);
    ActiveAll(s, areas, |areas|);
  }

  /** In single-monitor mode one monitor is used, if there is one. */
  lemma SingleMonitorCount(s: Settings, areas: seq<Area>, current: nat, maxWidth: u32, maxHeight: u32)
    requires SingleMonitor(s) && current <= U32_MAX && (areas != [] ==> current < |areas|)
    ensures |Listing(Requested(s, current), areas, current, maxWidth, maxHeight)| == if areas == [] then 0 else 1
  {
    RequestsOne(s, current);
    hide Requested, Active, IsActive, SingleMonitor, OnlyActive, InMonitorOrder;
    var r := Requested(s, current);
    ActiveOnly(r, areas, |areas|);
    AtMostOne(Active(r, areas, |areas|), r, areas);
  }

  lemma RequestsOne(s: Settings, current: nat)
    requires SingleMonitor(s) && current <= U32_MAX
    ensures Requested(s, current).numMonitorIds == 1
  {
  }

  lemma AtMostOne(l: seq<Monitor>, s: Settings, areas: seq<Area>)
    requires OnlyActive(l, s, areas) && InMonitorOrder(l) && s.numMonitorIds == 1
    ensures |l| <= 1
  {
    hide Listed, IsActive;
    if |l| > 1 {
      OnlyFirst(s, l[0].orig);
      OnlyFirst(s, l[1].orig);
      assert false;
    }
  }

  lemma OnlyFirst(s: Settings, id: nat)
    requires s.numMonitorIds == 1 && IsActive(s, id)
    ensures id == FirstId(s)
  {
  }

  // ---------- the bounding rectangle ----------

  /** The rectangle so far, and which monitor defines each edge. */
  datatype Bounds = Bounds(x: int, y: int, r: int, b: int, edges: Edges)

  function Min(a: int, b: int): int { if a < b then a else b }

  function Max(a: int, b: int): int { if a > b then a else b }

  function Start(m: Monitor): Bounds {
    Bounds(m.x, m.y, m.x + m.width, m.y + m.height, Edges(m.orig, m.orig, m.orig, m.orig))
  }

  /** One turn of the loop: union, edges, and scaling once more. */
  function Extend(v: Bounds, m: Monitor, psuw: u32, psuh: u32): Bounds {
    var x, y := Min(v.x, m.x), Min(v.y, m.y);
    var r, b := Max(v.r, m.x + m.width), Max(v.b, m.y + m.height);
    Bounds(x * psuw / 100, y * psuh / 100, r * psuw / 100, b * psuh / 100,
           Edges(if v.x != x then m.orig else v.edges.left, if v.y != y then m.orig else v.edges.top,
                 if v.r != r then m.orig else v.edges.right, if v.b != b then m.orig else v.edges.bottom))
  }

  function Fold(l: seq<Monitor>, n: nat, psuw: u32, psuh: u32): Bounds
    requires l != [] && n <= |l|
  {
    if n == 0 then Start(l[0]) else Extend(Fold(l, n - 1, psuw, psuh), l[n - 1], psuw, psuh)
  }

  datatype Side = Left | Top | Right | Bottom

  function Coordinate(m: Monitor, side: Side): int {
    match side
    case Left => m.x
    case Top => m.y
    case Right => m.x + m.width
    case Bottom => m.y + m.height
  }

  function Corner(v: Bounds, side: Side): int {
    match side
    case Left => v.x
    case Top => v.y
    case Right => v.r
    case Bottom => v.b
  }

  /** How far in a coordinate is, seen from a side: less is further out. */
  function Inward(side: Side, t: int): int {
    if side.Right? || side.Bottom? then -t else t
  }

  function Reach(m: Monitor, side: Side): int {
    Inward(side, Coordinate(m, side))
  }

  function Bound(v: Bounds, side: Side): int {
    Inward(side, Corner(v, side))
  }

  function EdgeOf(e: Edges, side: Side): int {
    match side
    case Left => e.left
    case Top => e.top
    case Right => e.right
    case Bottom => e.bottom
  }

  lemma ExtendUnscaled(v: Bounds, m: Monitor, side: Side)
    ensures var w := Extend(v, m, 100, 100);
            && Bound(w, side) == Min(Bound(v, side), Reach(m, side))
            && EdgeOf(w.edges, side) == if Reach(m, side) < Bound(v, side) then m.orig else EdgeOf(v.edges, side)
  {
  }

  /** Unscaled, the fold is the least rectangle around the monitors: on each side
      it reaches as far as the furthest, and the edge names the first monitor in
      the list that does. */
  lemma {:induction false} UnscaledFold(l: seq<Monitor>, n: nat, side: Side) returns (k: nat)
    requires 0 < n <= |l|
    ensures var v := Fold(l, n, 100, 100);
            && k < n && Bound(v, side) == Reach(l[k], side) && EdgeOf(v.edges, side) == l[k].orig
            && (forall i :: 0 <= i < n ==> Bound(v, side) <= Reach(l[i], side))
            && (forall i :: 0 <= i < k ==> Bound(v, side) < Reach(l[i], side))
  {
    hide Extend, Bound, Reach, EdgeOf;
    var v := Fold(l, n - 1, 100, 100);
    ExtendUnscaled(v, l[n - 1], side);
    if n == 1 {
      StartReach(l[0], side);
      k := 0;
    } else {
      k := UnscaledFold(l, n - 1, side);
      k := if Reach(l[n - 1], side) < Bound(v, side) then n - 1 else k;
    }
  }

  lemma StartReach(m: Monitor, side: Side)
    ensures Bound(Start(m), side) == Reach(m, side) && EdgeOf(Start(m).edges, side) == m.orig
  {
  }

  // ---------- the bounding rectangle under scaling, exactly ----------

  /** A coordinate after n turns of the loop have scaled it. */
  function Compound(t: int, ps: u32, n: nat): int {
    if n == 0 then t else Compound(t, ps, n - 1) * ps / 100
  }

  /** A monitor's coordinate when the loop is through with the first n monitors:
      scaled by its own turn and by all later ones. */
  function Final(l: seq<Monitor>, k: nat, n: nat, side: Side, ps: u32): int
    requires k < n <= |l|
  {
    Compound(Coordinate(l[k], side), ps, n - k)
  }

  function Factor(side: Side, psuw: u32, psuh: u32): u32 {
    if side.Left? || side.Right? then psuw else psuh
  }

  lemma MulLeq(a: int, b: int, c: int)
    requires a <= b && c >= 0
    ensures a * c <= b * c
  {
  }

  lemma ScaleMonotone(a: int, b: int, ps: u32)
    requires a <= b
    ensures a * ps / 100 <= b * ps / 100
  {
    MulLeq(a, b, ps);
  }

  lemma ExtendScaled(v: Bounds, m: Monitor, psuw: u32, psuh: u32, side: Side)
    ensures var w := Extend(v, m, psuw, psuh);
            var further := Reach(m, side) < Bound(v, side);
            && Corner(w, side) ==
               (if further then Coordinate(m, side) else Corner(v, side)) * Factor(side, psuw, psuh) / 100
            && EdgeOf(w.edges, side) == if further then m.orig else EdgeOf(v.edges, side)
  {
  }

  /** What the loop computes on a side: the outermost of the final coordinates,
      and an edge that names a monitor it is the coordinate of. */
  lemma {:induction false} FoldIsOutermost(l: seq<Monitor>, n: nat, psuw: u32, psuh: u32, side: Side) returns (k: nat)
    requires 0 < n <= |l|
    ensures var v, ps := Fold(l, n, psuw, psuh), Factor(side, psuw, psuh);
            && k < n && Corner(v, side) == Final(l, k, n, side, ps) && EdgeOf(v.edges, side) == l[k].orig
            && forall i :: 0 <= i < n ==> Bound(v, side) <= Inward(side, Final(l, i, n, side, ps))
  {
    hide Extend, Corner, Coordinate, EdgeOf, Factor;
    var v, w, ps := Fold(l, n - 1, psuw, psuh), Fold(l, n, psuw, psuh), Factor(side, psuw, psuh);
    var m := l[n - 1];
    ExtendScaled(v, m, psuw, psuh, side);
    assert Final(l, n - 1, n, side, ps) == Coordinate(m, side) * ps / 100 by {
      assert Compound(Coordinate(m, side), ps, 0) == Coordinate(m, side);
    }
    if n == 1 {
      StartReach(m, side);
      k := 0;
    } else {
      k := FoldIsOutermost(l, n - 1, psuw, psuh, side);
      var further := Reach(m, side) < Bound(v, side);
      var t := if further then Coordinate(m, side) else Corner(v, side);
      forall i | 0 <= i < n ensures Bound(w, side) <= Inward(side, Final(l, i, n, side, ps)) {
        var u := if i < n - 1 then Final(l, i, n - 1, side, ps) else Coordinate(m, side);
        assert Final(l, i, n, side, ps) == u * ps / 100;
        if Inward(side, 1) == 1 {
          ScaleMonotone(t, u, ps);
        } else {
          ScaleMonotone(u, t, ps);
        }
      }
      k := if further then n - 1 else k;
    }
  }

  /** Some far edge ends up beyond some near edge. */
  predicate Spans(l: seq<Monitor>, near: Side, far: Side, ps: u32) {
    exists i, j :: 0 <= i < |l| && 0 <= j < |l| && Final(l, i, |l|, near, ps) < Final(l, j, |l|, far, ps)
  }

  lemma SpansExactly(l: seq<Monitor>, psuw: u32, psuh: u32, near: Side, far: Side)
    requires l != [] && ((near == Left && far == Right) || (near == Top && far == Bottom))
    ensures var v := Fold(l, |l|, psuw, psuh);
            Corner(v, near) < Corner(v, far) <==> Spans(l, near, far, Factor(near, psuw, psuh))
  {
    hide Fold, Compound, Corner, Coordinate, EdgeOf, Final;
    var i := FoldIsOutermost(l, |l|, psuw, psuh, near);
    var j := FoldIsOutermost(l, |l|, psuw, psuh, far);
  }

  lemma {:induction false} CompoundBounds(t: int, ps: u32, n: nat)
    requires t >= 0 && ps <= 100
    ensures 0 <= Compound(t, ps, n) <= t
    ensures n > 0 && t > 0 && ps < 100 ==> Compound(t, ps, n) < t
  {
    if n > 0 {
      CompoundBounds(t, ps, n - 1);
      ScaledPart(Compound(t, ps, n - 1), ps);
      if t > 0 && ps < 100 {
        ScaleDown(t, ps);
        ScaleMonotone(Compound(t, ps, n - 1), t, ps);
      }
    }
  }

  lemma ScaledPart(v: int, ps: u32)
    requires v >= 0 && ps <= 100
    ensures 0 <= v * ps / 100 <= v
  {
    var p := v * ps;
    MulLeq(0, v, ps);
    MulLeq(ps, 100, v);
    assert 0 <= p <= 100 * v;
    assert 0 <= p / 100 <= v;
  }

  lemma ScaleDown(r: int, ps: u32)
    requires r > 0 && ps <= 100
    ensures r * ps / 100 <= r && (ps < 100 ==> r * ps / 100 < r)
  {
    MulLeq(ps, 100, r);
    assert ps * r == r * ps;
    if ps < 100 {
      MulLeq(ps, 99, r);
    }
  }

  /** No coordinate below the origin or beyond 2^16. */
  predicate InRange(l: seq<Monitor>) {
    forall i :: 0 <= i < |l| ==>
      0 <= l[i].x && 0 <= l[i].y && 0 <= l[i].width && 0 <= l[i].height
      && l[i].x + l[i].width <= 65536 && l[i].y + l[i].height <= 65536
  }

  lemma CornerInRange(l: seq<Monitor>, psuw: u32, psuh: u32, side: Side)
    requires l != [] && InRange(l) && psuw <= 100 && psuh <= 100
    ensures 0 <= Corner(Fold(l, |l|, psuw, psuh), side) <= 65536
  {
    hide Fold, Corner, EdgeOf;
    var k := FoldIsOutermost(l, |l|, psuw, psuh, side);
    assert 0 <= Coordinate(l[k], side) <= 65536;
    CompoundBounds(Coordinate(l[k], side), Factor(side, psuw, psuh), |l| - k);
  }

  lemma ScaledDifference(at: int, size: int, ps: u32)
    requires at >= 0 && size >= 0 && ps <= 100
    ensures (at + size) * ps / 100 - at * ps / 100 <= size
  {
    assert (at + size) * ps == at * ps + size * ps && size * ps <= size * 100;
  }

  lemma SingleExtent(m: Monitor, psuw: u32, psuh: u32)
    requires psuw <= 100 && psuh <= 100 && m.x >= 0 && m.y >= 0 && m.width >= 0 && m.height >= 0
    ensures var v := Fold([m], 1, psuw, psuh);
            v.r - v.x <= m.width && v.b - v.y <= m.height
  {
    assert Fold([m], 0, psuw, psuh) == Start(m);
    ScaledDifference(m.x, m.width, psuw);
    ScaledDifference(m.y, m.height, psuh);
  }

  /** The filter's own scaling keeps every edge below 2^16 + 1. */
  lemma ListedInRange(s: Settings, areas: seq<Area>)
    requires s.percentScreen <= 100 && Proper(areas)
    ensures InRange(Active(s, areas, |areas|))
  {
    hide Active;
    var l := Active(s, areas, |areas|);
    ActiveOnly(s, areas, |areas|);
    forall i | 0 <= i < |l|
      ensures 0 <= l[i].x && 0 <= l[i].y && 0 <= l[i].width && 0 <= l[i].height
      ensures l[i].x + l[i].width <= 65536 && l[i].y + l[i].height <= 65536
    {
      var a := areas[l[i].orig];
      ScaledPart(a.left, Percent(s.useWidth, s));
      ScaledPart(a.Width(), Percent(s.useWidth, s));
      ScaledPart(a.top, Percent(s.useHeight, s));
      ScaledPart(a.Height(), Percent(s.useWidth, s));
    }
  }

  /** No list the computation can come to is too large for the casts. */
  lemma ListingExtents(s: Settings, areas: seq<Area>, current: nat, maxWidth: u32, maxHeight: u32)
    requires Proper(areas) && areas != [] && current < |areas| && s.percentScreen <= 100
    ensures var l := Listing(s, areas, current, maxWidth, maxHeight);
            var v := Fold(l, |l|, Percent(s.useWidth, s), Percent(s.useHeight, s));
            v.r - v.x <= 65536 && v.b - v.y <= 65536
  {
    hide Active, Fold, InRange;
    var l := Active(s, areas, |areas|);
    var psuw, psuh := Percent(s.useWidth, s), Percent(s.useHeight, s);
    if l == [] {
      SingleExtent(Fallback(areas[current], current, maxWidth, maxHeight), psuw, psuh);
    } else {
      ListedInRange(s, areas);
      CornerInRange(l, psuw, psuh, Left);
      CornerInRange(l, psuw, psuh, Right);
      CornerInRange(l, psuw, psuh, Top);
      CornerInRange(l, psuw, psuh, Bottom);
    }
  }

  /** The casts of both extents hold exactly when the list spans both axes. */
  lemma CastsExact(s: Settings, areas: seq<Area>, current: nat, maxWidth: u32, maxHeight: u32)
    requires Proper(areas) && areas != [] && current < |areas| && s.percentScreen <= 100
    ensures var l := Listing(s, areas, current, maxWidth, maxHeight);
            var psuw, psuh := Percent(s.useWidth, s), Percent(s.useHeight, s);
            var v := Fold(l, |l|, psuw, psuh);
            && (Fits16(v.r - v.x - 1) <==> Spans(l, Left, Right, psuw))
            && (Fits16(v.b - v.y - 1) <==> Spans(l, Top, Bottom, psuh))
  {
    hide Listing, Fold, Spans;
    var l := Listing(s, areas, current, maxWidth, maxHeight);
    var psuw, psuh := Percent(s.useWidth, s), Percent(s.useHeight, s);
    ListingExtents(s, areas, current, maxWidth, maxHeight);
    SpansExactly(l, psuw, psuh, Left, Right);
    SpansExactly(l, psuw, psuh, Top, Bottom);
  }

  /** The far edge the loop computes, before the near edge is subtracted, is the
      true one exactly when widths are not scaled or the true one is 0. */
  lemma RightEdgeExact(l: seq<Monitor>, n: nat, psuw: u32, psuh: u32, k: nat)
    requires 0 < n <= |l| && k < n && psuw <= 100
    requires forall i :: 0 <= i < n ==> 0 <= l[i].x + l[i].width <= l[k].x + l[k].width
    ensures var right := l[k].x + l[k].width;
            Fold(l, n, psuw, psuh).r == right <==> psuw == 100 || right == 0
  {
    hide Fold, EdgeOf;
    var right := l[k].x + l[k].width;
    var j := FoldIsOutermost(l, n, psuw, psuh, Right);
    var t := l[j].x + l[j].width;
    assert Coordinate(l[j], Right) == t && Corner(Fold(l, n, psuw, psuh), Right) == Fold(l, n, psuw, psuh).r;
    CompoundBounds(t, psuw, n - j);
    if psuw == 100 {
      Uncompounded(right, n - k);
      assert Coordinate(l[k], Right) == right;
      assert Final(l, k, n, Right, psuw) == right;
    }
  }

  /** What is stored of the virtual screen on an axis, when the casts hold: its
      extent is the greatest final far edge less the least final near edge; when
      the axis is not scaled, the true extent of the list. A requested work area
      replaces the rows. */
  lemma StoredExtent(l: seq<Monitor>, s: Settings, wa: WorkArea, near: Side, far: Side) returns (i: nat, j: nat)
    requires l != [] && ((near == Left && far == Right) || (near == Top && far == Bottom))
    requires VirtualArea(Fold(l, |l|, Percent(s.useWidth, s), Percent(s.useHeight, s)), s, wa).Some?
    ensures i < |l| && j < |l|
    ensures var psuw, psuh := Percent(s.useWidth, s), Percent(s.useHeight, s);
            var a := VirtualArea(Fold(l, |l|, psuw, psuh), s, wa).value;
            var ps := Factor(near, psuw, psuh);
            var extent := Final(l, j, |l|, far, ps) - Final(l, i, |l|, near, ps);
            && (forall k :: 0 <= k < |l| ==> Final(l, i, |l|, near, ps) <= Final(l, k, |l|, near, ps))
            && (forall k :: 0 <= k < |l| ==> Final(l, k, |l|, far, ps) <= Final(l, j, |l|, far, ps))
            && (near == Left ==> a.left == 0 && a.Width() == extent)
            && (near == Top && !s.workarea ==> a.top == 0 && a.Height() == extent)
            && (near == Top && s.workarea ==> a.top == wa.y && a.Height() == wa.height)
            && (ps == 100 ==>
                  && extent == Coordinate(l[j], far) - Coordinate(l[i], near)
                  && (forall k :: 0 <= k < |l| ==> Coordinate(l[i], near) <= Coordinate(l[k], near))
                  && (forall k :: 0 <= k < |l| ==> Coordinate(l[k], far) <= Coordinate(l[j], far)))
  {
    hide Fold, EdgeOf, Coordinate, Final, Percent;
    var psuw, psuh := Percent(s.useWidth, s), Percent(s.useHeight, s);
    i := FoldIsOutermost(l, |l|, psuw, psuh, near);
    j := FoldIsOutermost(l, |l|, psuw, psuh, far);
    if Factor(near, psuw, psuh) == 100 {
      forall k | 0 <= k < |l|
        ensures Final(l, k, |l|, near, 100) == Coordinate(l[k], near)
        ensures Final(l, k, |l|, far, 100) == Coordinate(l[k], far)
      {
        UnscaledFinal(l, k, near);
        UnscaledFinal(l, k, far);
      }
    }
  }

  lemma UnscaledFinal(l: seq<Monitor>, k: nat, side: Side)
    requires k < |l|
    ensures Final(l, k, |l|, side, 100) == Coordinate(l[k], side)
  {
    Uncompounded(Coordinate(l[k], side), |l| - k);
  }

  /** Scaling can even enlarge what is stored: two monitors side by side, together
      200 wide, at fifty percent give an extent of 275. */
  lemma ScalingEnlarges(s: Settings)
    requires s.numMonitorIds == 0 && s.useWidth && s.percentScreen == 50
    ensures var areas := [Area(1800, 0, 1899, 99), Area(1900, 0, 1999, 99)];
            var l := Active(s, areas, 2);
            l != [] && var v := Fold(l, |l|, 50, Percent(s.useHeight, s)); v.r - v.x == 275
  {
    var areas := [Area(1800, 0, 1899, 99), Area(1900, 0, 1999, 99)];
    var l := Active(s, areas, 2);
    assert Active(s, areas, 0) == [] && Active(s, areas, 1) == [Listed(s, areas[0], 0)];
    assert l == [Listed(s, areas[0], 0), Listed(s, areas[1], 1)];
    var ps := Percent(s.useHeight, s);
    assert l[0].x == 900 && l[0].width == 50 && l[1].x == 950 && l[1].width == 50;
    assert Fold(l, 1, 50, ps).x == 450 && Fold(l, 1, 50, ps).r == 475 by {
      assert Fold(l, 0, 50, ps) == Start(l[0]);
    }
  }

  lemma {:induction false} Uncompounded(t: int, n: nat)
    ensures Compound(t, 100, n) == t
  {
    if n > 0 {
      Uncompounded(t, n - 1);
    }
  }

  // ---------- a simple condition that suffices ----------

  /** A list as the filter yields it for percentages of at most 100: origins and
      far edges in range, and no side that the scaling makes empty. */
  predicate Scalable(l: seq<Monitor>, psuw: u32, psuh: u32) {
    forall i :: 0 <= i < |l| ==>
      l[i].x >= 0 && l[i].y >= 0 && l[i].width * psuw >= 100 && l[i].height * psuh >= 100
  }

  predicate Within(l: seq<Monitor>, right: int, bottom: int) {
    forall i :: 0 <= i < |l| ==> l[i].x + l[i].width <= right && l[i].y + l[i].height <= bottom
  }

  lemma DivLess(p: int, q: int, hi: int)
    requires 0 <= p && p + 100 <= q <= 100 * hi
    ensures 0 <= p / 100 < q / 100 <= hi
  {
  }

  /** One axis of one turn: scaling both ends of a span that holds a monitor
      leaves it non-empty and moves neither end out. */
  lemma ScaleSpan(lo: int, hi: int, at: int, size: int, ps: u32)
    requires 0 <= lo <= at && at + size <= hi && 1 <= ps <= 100 && size * ps >= 100
    ensures 0 <= lo * ps / 100 < hi * ps / 100 <= hi
  {
    var p, q := lo * ps, hi * ps;
    MulLeq(0, lo, ps);
    MulLeq(lo + size, hi, ps);
    assert (lo + size) * ps == p + size * ps;
    SizePositive(size, ps);
    MulLeq(ps, 100, hi);
    assert hi * ps == ps * hi;
    DivLess(p, q, hi);
  }

  /** After any number of turns the compounded rectangle is not empty and lies
      between the origin and the true right and bottom edges. */
  lemma {:induction false} ScaledFold(l: seq<Monitor>, n: nat, psuw: u32, psuh: u32, right: int, bottom: int)
    requires l != [] && n <= |l| && 1 <= psuw <= 100 && 1 <= psuh <= 100
    requires Scalable(l, psuw, psuh) && Within(l, right, bottom)
    ensures var v := Fold(l, n, psuw, psuh);
            0 <= v.x < v.r <= right && 0 <= v.y < v.b <= bottom
  {
    if n == 0 {
      SizePositive(l[0].width, psuw);
      SizePositive(l[0].height, psuh);
    } else {
      ScaledFold(l, n - 1, psuw, psuh, right, bottom);
      var v, m := Fold(l, n - 1, psuw, psuh), l[n - 1];
      ScaleSpan(Min(v.x, m.x), Max(v.r, m.x + m.width), m.x, m.width, psuw);
      ScaleSpan(Min(v.y, m.y), Max(v.b, m.y + m.height), m.y, m.height, psuh);
    }
  }

  lemma SizePositive(size: int, ps: u32)
    requires size * ps >= 100
    ensures size > 0
  {
    assert size <= 0 ==> size * ps <= 0;
  }

  /** No listed monitor too small for the percentages: then the casts hold. */
  lemma ExtentsFit(s: Settings, areas: seq<Area>, current: nat, maxWidth: u32, maxHeight: u32)
    requires Proper(areas) && areas != [] && current < |areas| && s.percentScreen <= 100
    requires 1 <= Percent(s.useWidth, s) && 1 <= Percent(s.useHeight, s)
    requires Scalable(Listing(s, areas, current, maxWidth, maxHeight), Percent(s.useWidth, s), Percent(s.useHeight, s))
    ensures var l := Listing(s, areas, current, maxWidth, maxHeight);
            var psuw, psuh := Percent(s.useWidth, s), Percent(s.useHeight, s);
            var v := Fold(l, |l|, psuw, psuh);
            && Spans(l, Left, Right, psuw) && Spans(l, Top, Bottom, psuh)
            && Fits16(v.r - v.x - 1) && Fits16(v.b - v.y - 1)
  {
    hide Listing, Fold, Scalable, Spans;
    var l := Listing(s, areas, current, maxWidth, maxHeight);
    var right, bottom := WithinSome(l);
    ScaledFold(l, |l|, Percent(s.useWidth, s), Percent(s.useHeight, s), right, bottom);
    ListingExtents(s, areas, current, maxWidth, maxHeight);
    CastsExact(s, areas, current, maxWidth, maxHeight);
  }

  lemma {:induction false} WithinSome(l: seq<Monitor>) returns (right: int, bottom: int)
    ensures Within(l, right, bottom)
  {
    if l == [] {
      right, bottom := 0, 0;
    } else {
      var n := |l| - 1;
      right, bottom := WithinSome(l[..n]);
      assert forall i :: 0 <= i < n ==> l[i] == l[..n][i];
      right, bottom := Max(right, l[n].x + l[n].width), Max(bottom, l[n].y + l[n].height);
    }
  }

  // ---------- the primary monitor ----------

  predicate HasPrimary(l: seq<Monitor>) {
    exists k :: 0 <= k < |l| && l[k].primary
  }

  predicate AtOrigin(m: Monitor) {
    m.x == 0 && m.y == 0
  }

  /** The entry the fallback looks at: the first requested id, or the screen
      number, used as an index into the list. */
  function LookupIndex(s: Settings, screenNumber: u32): nat {
    if s.numMonitorIds == 0 then screenNumber else FirstId(s)
  }

  /** The first entry at the origin from i on, else n. */
  function FirstAtOrigin(l: seq<Monitor>, n: nat, i: nat): (k: nat)
    requires i <= n <= |l|
    ensures i <= k <= n && (k < n ==> AtOrigin(l[k]))
    decreases n - i
  {
    if i == n || AtOrigin(l[i]) then i else FirstAtOrigin(l, n, i + 1)
  }

  /** The array of one entry more than there are monitors, filled from the front. */
  function Allocated(l: seq<Monitor>, n: nat): (a: seq<Monitor>)
    requires |l| <= n
    ensures |a| == n + 1
  {
    l + seq(n + 1 - |l|, _ => ZERO)
  }

  /** The entries after the fallback search; None when it looks outside the array. */
  function ChoosePrimary(a: seq<Monitor>, count: nat, j: nat): (r: Option<seq<Monitor>>)
    requires count <= |a|
    ensures r.Some? ==> |r.value| == |a|
  {
    if HasPrimary(a[..count]) then Some(a)
    else if j >= |a| then None
    else if !AtOrigin(a[j]) then Some(a[j := a[j].(primary := true)])
    else
      var k := FirstAtOrigin(a, count, 0);
      Some(if k < count then a[k := a[k].(primary := true)] else a)
  }

  /** No two of the first n entries are primary. */
  predicate UniquePrimary(a: seq<Monitor>, n: nat)
    requires n <= |a|
  {
    forall j, k :: 0 <= j < n && 0 <= k < n && a[j].primary && a[k].primary ==> j == k
  }

  lemma ListingUnique(s: Settings, areas: seq<Area>, current: nat, maxWidth: u32, maxHeight: u32)
    requires areas != [] && current < |areas|
    ensures var l := Listing(s, areas, current, maxWidth, maxHeight);
            && UniquePrimary(l, |l|)
            && (forall k :: 0 <= k < |l| && l[k].primary ==> l[k].orig == FirstId(s))
            && (HasPrimary(l) <==> FirstId(s) < |areas| && IsActive(s, FirstId(s)))
  {
    hide IsActive, Active, Fallback;
    ActiveOnly(s, areas, |areas|);
    ActiveAll(s, areas, |areas|);
    var l := Active(s, areas, |areas|);
    var id: nat := FirstId(s);
    if id < |areas| && IsActive(s, id) {
      var k := |Active(s, areas, id)|;
      assert l[k].orig == id && l[k].primary;
    }
    if l == [] {
      FallbackNotPrimary(areas[current], current, maxWidth, maxHeight);
    }
  }

  lemma FallbackNotPrimary(a: Area, current: nat, maxWidth: u32, maxHeight: u32)
    ensures !Fallback(a, current, maxWidth, maxHeight).primary
  {
  }

  lemma ChooseUnique(l: seq<Monitor>, n: nat, j: nat)
    requires |l| <= n && UniquePrimary(l, |l|)
    ensures var r := ChoosePrimary(Allocated(l, n), |l|, j);
            && (r.None? <==> !HasPrimary(l) && j > n)
            && (r.Some? ==> UniquePrimary(r.value, |l|))
            && (HasPrimary(l) ==> r == Some(Allocated(l, n)))
  {
    var a := Allocated(l, n);
    assert a[..|l|] == l;
    assert forall k :: 0 <= k < |l| ==> a[k] == l[k];
  }

  /** When the entry the fallback looks at is inside the array, at most one listed
      monitor is primary; when the first requested id names an existing monitor
      that is among the active ones, exactly that one is. */
  lemma PrimaryUnique(s: Settings, areas: seq<Area>, current: nat, maxWidth: u32, maxHeight: u32, screenNumber: u32)
    requires areas != [] && current < |areas|
    ensures var l := Listing(s, areas, current, maxWidth, maxHeight);
            var j := LookupIndex(s, screenNumber);
            var found := FirstId(s) < |areas| && IsActive(s, FirstId(s));
            var r := ChoosePrimary(Allocated(l, |areas|), |l|, j);
            && (r.None? <==> !found && j > |areas|)
            && (r.Some? ==> UniquePrimary(r.value, |l|))
            && (found ==> r.Some? && exists k :: 0 <= k < |l| && r.value[k].primary && r.value[k].orig == FirstId(s))
  {
    hide IsActive, Listing, ChoosePrimary;
    ListingUnique(s, areas, current, maxWidth, maxHeight);
    var l := Listing(s, areas, current, maxWidth, maxHeight);
    ChooseUnique(l, |areas|, LookupIndex(s, screenNumber));
    if HasPrimary(l) {
      var k :| 0 <= k < |l| && l[k].primary;
      assert Allocated(l, |areas|)[k] == l[k];
    }
  }

  /** A request that names a monitor always finds it when it exists. */
  lemma FirstRequestIsActive(s: Settings)
    requires s.numMonitorIds == 0 || s.monitorIds != []
    ensures IsActive(s, FirstId(s))
  {
    if s.numMonitorIds > 0 {
      assert s.monitorIds[0] == FirstId(s);
    }
  }

  // ---------- sizes, and the whole computation ----------

  /** What the client keeps between calls. */
  datatype Context = Context(settings: Settings, areas: seq<Area>, workArea: WorkArea, edges: Edges, area: Area)

  datatype Outcome = Done(c: Context, maxWidth: u32, maxHeight: u32, listed: seq<Monitor>) | Stopped

  /** The monitors to work with; None when a coordinate does not fit 16 bits. */
  function Screens(areas: seq<Area>, q: Query): (r: Option<seq<Area>>)
    ensures r.Some? && Proper(areas) && |areas| <= 16 ==> Proper(r.value) && |r.value| <= 16
  {
    match q.screens
    case None => Some(areas)
    case Some(ms) =>
      if |ms| > 16 then Some([])
      else if exists i :: 0 <= i < |ms| && !Castable(ms[i]) then None
      else Some(seq(|ms|, i requires 0 <= i < |ms| && Castable(ms[i]) => ToArea(ms[i])))
  }

  function WorkAreaOf(s: Settings, areas: seq<Area>, current: nat, q: Query): WorkArea
    requires areas != [] ==> current < |areas|
    requires Proper(areas)
  {
    if !s.remoteApplication && q.workArea.Some? then q.workArea.value
    else if s.numMonitorIds == 1 && areas != [] then
      WorkArea(areas[current].left, areas[current].top, areas[current].Width(), areas[current].Height())
    else WorkArea(0, 0, q.screenWidth, q.screenHeight)
  }

  function ScaledSize(size: u32, flag: bool, s: Settings): u32 {
    if flag then Wrap32(size * s.percentScreen) / 100 else size
  }

  /** The size asked for, before the monitors limit it. */
  function AskedSize(s: Settings, areas: seq<Area>, current: nat, wa: WorkArea, q: Query): (u32, u32)
    requires areas != [] ==> current < |areas|
    requires Proper(areas)
  {
    if s.fullscreen then (q.screenWidth, q.screenHeight)
    else if s.workarea then (wa.width, wa.height)
    else if s.percentScreen != 0 then
      if areas != [] then
        (ScaledSize(areas[current].Width(), s.useWidth, s), ScaledSize(areas[current].Height(), s.useHeight, s))
      else (ScaledSize(wa.width, s.useWidth, s), ScaledSize(wa.height, s.useHeight, s))
    else (s.desktopWidth, s.desktopHeight)
  }

  /** The 32-bit product loses nothing exactly when it fits; then the size is the
      percentage rounded down. */
  lemma ScaledSizeExact(size: u32, s: Settings)
    ensures ScaledSize(size, true, s) == size * s.percentScreen / 100 <==> size * s.percentScreen <= U32_MAX
    ensures s.percentScreen <= 100 && size <= 65536 ==> ScaledSize(size, true, s) <= size
  {
    var p := size * s.percentScreen;
    MulLeq(0, size, s.percentScreen);
    assert p >= 0;
    if p > U32_MAX {
      assert Wrap32(p) <= p - 0x1_0000_0000;
    }
    if s.percentScreen <= 100 && size <= 65536 {
      MulLeq(s.percentScreen, 100, size);
      assert p <= 100 * size <= U32_MAX;
      ScaledPart(size, s.percentScreen);
    }
  }

  /** A percentage of at most 100 never asks for more than the current monitor,
      and each axis for exactly that share of it. */
  lemma AskedWithinMonitor(s: Settings, areas: seq<Area>, current: nat, wa: WorkArea, q: Query)
    requires Proper(areas) && areas != [] && current < |areas|
    requires !s.fullscreen && !s.workarea && 1 <= s.percentScreen <= 100
    ensures var (w, h) := AskedSize(s, areas, current, wa, q);
            var a := areas[current];
            && w <= a.Width() && h <= a.Height()
            && 100 * w <= a.Width() * Percent(s.useWidth, s) < 100 * (w + 1)
            && 100 * h <= a.Height() * Percent(s.useHeight, s) < 100 * (h + 1)
  {
    ScaledSizeExact(areas[current].Width(), s);
    ScaledSizeExact(areas[current].Height(), s);
    MulLeq(s.percentScreen, 100, areas[current].Width());
    MulLeq(s.percentScreen, 100, areas[current].Height());
  }

  /** Where the work area comes from, and exactly when its rows fit 16 bits: a
      monitor's always do, the screen's when it is 1 to 65536 high, and those the
      window manager reports when they do. */
  lemma WorkAreaRows(s: Settings, areas: seq<Area>, current: nat, q: Query)
    requires Proper(areas) && (areas != [] ==> current < |areas|)
    ensures var wa := WorkAreaOf(s, areas, current, q);
            var fits := Fits16(wa.y) && Fits16(wa.y + wa.height - 1);
            if !s.remoteApplication && q.workArea.Some? then wa == q.workArea.value
            else if s.numMonitorIds == 1 && areas != [] then
              && fits && wa.x + wa.width - 1 == areas[current].right && wa.y + wa.height - 1 == areas[current].bottom
              && forall x, y :: areas[current].Contains(x, y) <==>
                   wa.x <= x < wa.x + wa.width && wa.y <= y < wa.y + wa.height
            else && wa.x == wa.y == 0 && wa.width == q.screenWidth && wa.height == q.screenHeight
                 && (fits <==> 1 <= q.screenHeight <= 65536)
  {
  }

  /** The area of the virtual screen; None when an extent does not fit 16 bits. */
  function VirtualArea(v: Bounds, s: Settings, wa: WorkArea): (r: Option<Area>)
    ensures r.Some? ==> r.value.Width() >= 0 && r.value.Height() >= 0
  {
    var r, b := v.r - v.x - 1, v.b - v.y - 1;
    var bottom := wa.height + wa.y - 1;
    if !Fits16(r) || !Fits16(b) then None
    else if !s.workarea then Some(Area(0, 0, r, b))
    else if !Fits16(wa.y) || !Fits16(bottom) then None
    else Some(Area(0, wa.y, r, bottom))
  }

  /** From the filter on, for at least one monitor. */
  function Arrange(c: Context, current: nat, maxWidth: u32, maxHeight: u32, q: Query): Outcome
    requires c.areas != [] && current < |c.areas|
  {
    var s := c.settings;
    var l := Listing(s, c.areas, current, maxWidth, maxHeight);
    var v := Fold(l, |l|, Percent(s.useWidth, s), Percent(s.useHeight, s));
    var area := VirtualArea(v, s, c.workArea);
    var entries := ChoosePrimary(Allocated(l, |c.areas|), |l|, LookupIndex(s, q.screenNumber));
    if s.percentScreen > 100 || area.None? || entries.None? then Stopped
    else
      var a := area.value;
      Done(c.(settings := s.(monitorCount := |l|, layoutPdu := s.layoutPdu || |l| > 1), edges := v.edges, area := a),
           Min(maxWidth, a.Width()), Min(maxHeight, a.Height()),
           entries.value[..|l|])
  }

  /** What the computation knows when it turns to the list of monitors. */
  datatype Prepared = Prepared(c: Context, current: nat, width: u32, height: u32)

  function Prepare(c: Context, areas: seq<Area>, q: Query): (p: Prepared)
    requires Proper(areas) && |areas| <= 16
    ensures p.c.areas == areas && (areas != [] ==> p.current < |areas|) && p.current <= 16
  {
    var (x, y) := if q.mouse.Some? then q.mouse.value else (0, 0);
    var current := CurrentFrom(areas, x, y, 0);
    var s := Requested(c.settings, current);
    var wa := WorkAreaOf(s, areas, current, q);
    var (w, h) := AskedSize(s, areas, current, wa, q);
    Prepared(Context(s, areas, wa, Edges(0, 0, 0, 0), c.area), current, w, h)
  }

  function Detect(c: Context, q: Query): Outcome
    requires Proper(c.areas) && |c.areas| <= 16
  {
    var s := c.settings;
    if s.parentWindow then
      Done(c.(workArea := WorkArea(0, 0, s.desktopWidth, s.desktopHeight)), s.desktopWidth, s.desktopHeight, [])
    else
      match Screens(c.areas, q)
      case None => Stopped
      case Some(areas) =>
        var p := Prepare(c, areas, q);
        if areas == [] then Done(p.c.(settings := p.c.settings.(monitorCount := 0)), p.width, p.height, [])
        else Arrange(p.c, p.current, p.width, p.height, q)
  }

  /** Where the computation stops once there are monitors: on a percentage above
      100, on a rectangle that scaling leaves empty on an axis, on a work area
      whose rows do not fit 16 bits, or on a primary lookup outside the array. */
  predicate Stops(c: Context, current: nat, maxWidth: u32, maxHeight: u32, screenNumber: u32)
    requires c.areas != [] && current < |c.areas|
  {
    var s, wa := c.settings, c.workArea;
    var l := Listing(s, c.areas, current, maxWidth, maxHeight);
    || s.percentScreen > 100
    || !Spans(l, Left, Right, Percent(s.useWidth, s))
    || !Spans(l, Top, Bottom, Percent(s.useHeight, s))
    || (s.workarea && !(Fits16(wa.y) && Fits16(wa.y + wa.height - 1)))
    || (!(FirstId(s) < |c.areas| && IsActive(s, FirstId(s))) && LookupIndex(s, screenNumber) > |c.areas|)
  }

  lemma ArrangeCompletes(c: Context, current: nat, maxWidth: u32, maxHeight: u32, q: Query)
    requires c.areas != [] && current < |c.areas| && Proper(c.areas)
    ensures Arrange(c, current, maxWidth, maxHeight, q).Stopped? <==>
              Stops(c, current, maxWidth, maxHeight, q.screenNumber)
  {
    hide Listing, Fold, IsActive, ChoosePrimary, LookupIndex, Spans;
    var s := c.settings;
    PrimaryUnique(s, c.areas, current, maxWidth, maxHeight, q.screenNumber);
    if s.percentScreen <= 100 {
      CastsExact(s, c.areas, current, maxWidth, maxHeight);
    }
  }

  /** A coordinate that does not fit 16 bits, among at most 16 monitors. */
  predicate Unrepresentable(q: Query) {
    q.screens.Some? && |q.screens.value| <= 16
    && exists i :: 0 <= i < |q.screens.value| && !Castable(q.screens.value[i])
  }

  /** The whole computation stops there and nowhere else. */
  lemma DetectCompletes(c: Context, q: Query)
    requires Proper(c.areas) && |c.areas| <= 16
    ensures Detect(c, q).Stopped? <==>
              && !c.settings.parentWindow
              && (Unrepresentable(q)
                  || var areas := Screens(c.areas, q).value;
                     var p := Prepare(c, areas, q);
                     areas != [] && Stops(p.c, p.current, p.width, p.height, q.screenNumber))
  {
    hide Arrange, Prepare, Stops, Proper;
    ScreensExact(c.areas, q);
    if !c.settings.parentWindow && !Unrepresentable(q) {
      var areas := Screens(c.areas, q).value;
      var p := Prepare(c, areas, q);
      if areas != [] {
        ArrangeCompletes(p.c, p.current, p.width, p.height, q);
      }
    }
  }

  lemma ScreensExact(areas: seq<Area>, q: Query)
    ensures Screens(areas, q).None? <==> Unrepresentable(q)
  {
  }

  /** An ordinary input on which it stops: one 1920 by 1080 monitor, no request,
      two percent of width and height. */
  lemma TwoPercentStops(c: Context, q: Query)
    requires Proper(c.areas) && |c.areas| <= 16 && q.screens == Some([Screen(0, 0, 1920, 1080)])
    requires var s := c.settings;
             !s.parentWindow && s.numMonitorIds == 0 && s.percentScreen == 2 && s.useWidth && s.useHeight
    ensures Detect(c, q).Stopped?
  {
    hide Prepare, Requested, Stops, Detect;
    var areas := [Area(0, 0, 1919, 1079)];
    OneScreen(c.areas, q);
    PrepareRequests(c, areas, q);
    var p := Prepare(c, areas, q);
    UnrequestedIsActive(c.settings, p.current);
    OneMonitorListed(p.c.settings, areas[0], p.width, p.height);
    assert Stops(p.c, p.current, p.width, p.height, q.screenNumber) by {
      StopsUnspanned(p.c, p.current, p.width, p.height, q.screenNumber);
    }
    DetectCompletes(c, q);
  }

  lemma StopsUnspanned(c: Context, current: nat, maxWidth: u32, maxHeight: u32, screenNumber: u32)
    requires c.areas != [] && current < |c.areas|
    requires !Spans(Listing(c.settings, c.areas, current, maxWidth, maxHeight), Left, Right,
                    Percent(c.settings.useWidth, c.settings))
    ensures Stops(c, current, maxWidth, maxHeight, screenNumber)
  {
  }

  lemma OneScreen(areas: seq<Area>, q: Query)
    requires q.screens == Some([Screen(0, 0, 1920, 1080)])
    ensures !Unrepresentable(q) && Screens(areas, q) == Some([Area(0, 0, 1919, 1079)])
  {
    assert Castable(q.screens.value[0]) && ToArea(q.screens.value[0]) == Area(0, 0, 1919, 1079);
    assert Screens(areas, q).value == [Area(0, 0, 1919, 1079)];
  }

  /** Without a request the current monitor is active, percentages stay. */
  lemma UnrequestedIsActive(s: Settings, current: nat)
    requires s.numMonitorIds == 0 && current <= U32_MAX
    ensures var r := Requested(s, current);
            && IsActive(r, current)
            && r.percentScreen == s.percentScreen && r.useWidth == s.useWidth && r.useHeight == s.useHeight
  {
    var r := Requested(s, current);
    if SingleMonitor(s) {
      assert r.numMonitorIds == 1 && r.monitorIds == [current];
      assert r.monitorIds[0] == current;
    }
  }

  lemma OneMonitorListed(s: Settings, a: Area, maxWidth: u32, maxHeight: u32)
    requires a == Area(0, 0, 1919, 1079) && IsActive(s, 0) && s.percentScreen == 2 && s.useWidth
    ensures !Spans(Listing(s, [a], 0, maxWidth, maxHeight), Left, Right, 2)
  {
    var l := Listing(s, [a], 0, maxWidth, maxHeight);
    assert Active(s, [a], 0) == [] && Active(s, [a], 1) == [Listed(s, a, 0)];
    assert l == [Listed(s, a, 0)] && l[0].x == 0 && l[0].width == 38;
    assert Compound(0, 2, 0) == 0 && Compound(38, 2, 0) == 38;
    assert Final(l, 0, 1, Left, 2) == 0 && Final(l, 0, 1, Right, 2) == 0;
  }

  /** Whenever the computation completes: the count is that of the list, at most
      one listed monitor is primary, one monitor is listed in single-monitor mode,
      and the size is what was asked for, cut to the virtual screen. */
  lemma DetectSound(c: Context, q: Query)
    requires Proper(c.areas) && |c.areas| <= 16 && !c.settings.parentWindow && Detect(c, q).Done?
    ensures var d := Detect(c, q);
            && Proper(d.c.areas) && |d.c.areas| <= 16
            && d.c.settings.monitorCount == |d.listed| <= |d.c.areas|
            && UniquePrimary(d.listed, |d.listed|)
            && (SingleMonitor(c.settings) ==> |d.listed| == if d.c.areas == [] then 0 else 1)
            && var asked := Prepare(c, d.c.areas, q);
               if d.listed == [] then d.maxWidth == asked.width && d.maxHeight == asked.height
               else && d.maxWidth == Min(asked.width, d.c.area.Width())
                    && d.maxHeight == Min(asked.height, d.c.area.Height())
  {
    hide Prepare, Arrange, Screens, Listing, Proper, SingleMonitor, Min;
    var areas := Screens(c.areas, q).value;
    var p := Prepare(c, areas, q);
    PrepareRequests(c, areas, q);
    if SingleMonitor(c.settings) {
      SingleMonitorCount(c.settings, areas, p.current, p.width, p.height);
    }
    if areas != [] {
      ArrangeSound(p.c, p.current, p.width, p.height, q);
    }
  }

  lemma PrepareRequests(c: Context, areas: seq<Area>, q: Query)
    requires Proper(areas) && |areas| <= 16
    ensures var p := Prepare(c, areas, q);
            p.c.settings == Requested(c.settings, p.current)
  {
  }

  lemma ArrangeSound(c: Context, current: nat, maxWidth: u32, maxHeight: u32, q: Query)
    requires c.areas != [] && current < |c.areas| && Arrange(c, current, maxWidth, maxHeight, q).Done?
    ensures var d := Arrange(c, current, maxWidth, maxHeight, q);
            var l := Listing(c.settings, c.areas, current, maxWidth, maxHeight);
            && d.c.areas == c.areas && d.c.settings.monitorCount == |d.listed| == |l|
            && UniquePrimary(d.listed, |d.listed|)
            && d.maxWidth == Min(maxWidth, d.c.area.Width()) && d.maxHeight == Min(maxHeight, d.c.area.Height())
  {
    hide Listing, Fold, VirtualArea, ChoosePrimary, IsActive, LookupIndex;
    PrimaryUnique(c.settings, c.areas, current, maxWidth, maxHeight, q.screenNumber);
  }
}
