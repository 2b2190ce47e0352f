/** xf_detect_monitors with its loops and the fields it updates, against the
    function MonitorSpec.Detect. */
module XfMonitor {
  import opened Wire
  import opened MonitorSpec

  class ClientContext {
    var settings: Settings
    var areas: seq<Area>
    var workArea: WorkArea
    var edges: Edges
    var area: Area

    constructor (s: Settings)
      ensures Valid() && settings == s && areas == []
    {
      settings, areas, workArea, edges, area := s, [], WorkArea(0, 0, 0, 0), Edges(0, 0, 0, 0), Area(0, 0, 0, 0);
    }

    predicate Valid()
      reads this
    {
      Proper(areas) && |areas| <= 16
    }

    function Ctx(): Context
      reads this
    {
      Context(settings, areas, workArea, edges, area)
    }

    method IsMonitorIdActive(id: nat) returns (active: bool)
      ensures active <==> IsActive(settings, id)
    {
      var n := settings.numMonitorIds;
      if n == 0 {
        return true;
      }
      for index := 0 to n
        invariant forall k :: 0 <= k < index && k < |settings.monitorIds| ==> settings.monitorIds[k] != id
      {
        if index < |settings.monitorIds| && settings.monitorIds[index] == id {
          return true;
        }
      }
      return false;
    }

    /** The monitors X reports, cast to 16 bits one by one. */
    method ReadScreens(q: Query) returns (ok: bool)
      requires Valid()
      modifies this`areas
      ensures ok <==> Screens(old(areas), q).Some?
      ensures ok ==> Valid() && areas == Screens(old(areas), q).value
    {
      if q.screens.None? {
        return true;
      }
      var ms := q.screens.value;
      if |ms| > 16 {
        areas := [];
        return true;
      }
      var read: seq<Area> := [];
      for i := 0 to |ms|
        invariant |read| == i && forall k :: 0 <= k < i ==> Castable(ms[k]) && read[k] == ToArea(ms[k])
      {
        if !Castable(ms[i]) {
          return false;
        }
        read := read + [ToArea(ms[i])];
      }
      areas := read;
      return true;
    }

    method CurrentMonitor(x: int, y: int) returns (current: nat)
      ensures current == CurrentFrom(areas, x, y, 0)
    {
      var i := 0;
      while i < |areas|
        invariant i <= |areas| && CurrentFrom(areas, x, y, 0) == CurrentFrom(areas, x, y, i)
      {
        if areas[i].Contains(x, y) {
          return i;
        }
        i := i + 1;
      }
      return 0;
    }

    /** Fills the array from the front with the active monitors, or with the
        current one when none is active. */
    method FillMonitors(rdpmonitors: array<Monitor>, current: nat, maxWidth: u32, maxHeight: u32)
      returns (nmonitors: nat, primaryFound: bool)
      requires Valid() && rdpmonitors.Length == |areas| + 1 && (areas != [] ==> current < |areas|)
      requires forall k :: 0 <= k < rdpmonitors.Length ==> rdpmonitors[k] == ZERO
      modifies rdpmonitors
      ensures nmonitors == |Listing(settings, areas, current, maxWidth, maxHeight)|
      ensures rdpmonitors[..] == Allocated(Listing(settings, areas, current, maxWidth, maxHeight), |areas|)
      ensures primaryFound <==> HasPrimary(Listing(settings, areas, current, maxWidth, maxHeight))
    {
      hide Listed, IsActive;
      nmonitors, primaryFound := 0, false;
      var i := 0;
      while i < |areas|
        invariant nmonitors <= i <= |areas|
        invariant rdpmonitors[..nmonitors] == Active(settings, areas, i)
        invariant primaryFound <==> HasPrimary(rdpmonitors[..nmonitors])
        invariant forall k :: nmonitors <= k < rdpmonitors.Length ==> rdpmonitors[k] == ZERO
      {
        var active := IsMonitorIdActive(i);
        if active {
          rdpmonitors[nmonitors] := Listed(settings, areas[i], i);
          if i == FirstId(settings) {
            primaryFound := true;
          }
          PrimarySnoc(rdpmonitors[..nmonitors], rdpmonitors[nmonitors]);
          assert rdpmonitors[..nmonitors + 1] == rdpmonitors[..nmonitors] + [rdpmonitors[nmonitors]];
          nmonitors := nmonitors + 1;
        }
        i := i + 1;
      }
      if nmonitors == 0 && areas != [] {
        rdpmonitors[0] := Fallback(areas[current], current, maxWidth, maxHeight);
        nmonitors := 1;
        FallbackNotPrimary(areas[current], current, maxWidth, maxHeight);
      }
      assert rdpmonitors[..nmonitors] == Listing(settings, areas, current, maxWidth, maxHeight);
    }

    /** The loop that unites the rectangles and records the edges. */
    method BoundingRectangle(rdpmonitors: array<Monitor>, count: nat) returns (v: Bounds)
      requires 0 < count <= rdpmonitors.Length
      modifies this`edges
      ensures v == Fold(rdpmonitors[..count], count, Percent(settings.useWidth, settings),
                        Percent(settings.useHeight, settings))
      ensures edges == v.edges
    {
      ghost var l := rdpmonitors[..count];
      var first := rdpmonitors[0];
      var vX, vY := first.x, first.y;
      var vR, vB := vX + first.width, vY + first.height;
      edges := Edges(first.orig, first.orig, first.orig, first.orig);
      var psuw := Percent(settings.useWidth, settings);
      var psuh := Percent(settings.useHeight, settings);
      for i := 0 to count
        invariant Bounds(vX, vY, vR, vB, edges) == Fold(l, i, psuw, psuh)
      {
        var m := rdpmonitors[i];
        var destX, destY := Min(vX, m.x), Min(vY, m.y);
        var destR, destB := Max(vR, m.x + m.width), Max(vB, m.y + m.height);
        if vX != destX {
          edges := edges.(left := m.orig);
        }
        if vY != destY {
          edges := edges.(top := m.orig);
        }
        if vR != destR {
          edges := edges.(right := m.orig);
        }
        if vB != destB {
          edges := edges.(bottom := m.orig);
        }
        vX, vY := destX * psuw / 100, destY * psuh / 100;
        vR, vB := destR * psuw / 100, destB * psuh / 100;
      }
      v := Bounds(vX, vY, vR, vB, edges);
    }

    /** The fallback search, when the filter found no primary monitor. */
    method FindPrimary(rdpmonitors: array<Monitor>, count: nat, screenNumber: u32) returns (ok: bool)
      requires count <= rdpmonitors.Length && !HasPrimary(rdpmonitors[..count])
      modifies rdpmonitors
      ensures var r := ChoosePrimary(old(rdpmonitors[..]), count, LookupIndex(settings, screenNumber));
              (ok <==> r.Some?) && (ok ==> rdpmonitors[..] == r.value)
    {
      assert rdpmonitors[..][..count] == rdpmonitors[..count];
      var index: nat := 0;
      if settings.numMonitorIds > 0 {
        if settings.monitorIds != [] {
          index := settings.monitorIds[0];
        }
      } else {
        index := screenNumber;
      }
      if index >= rdpmonitors.Length {
        return false;
      }
      if rdpmonitors[index].x != 0 || rdpmonitors[index].y != 0 {
        rdpmonitors[index] := rdpmonitors[index].(primary := true);
        return true;
      }
      ghost var a := rdpmonitors[..];
      ghost var first := FirstAtOrigin(a, count, 0);
      var found := false;
      for i := 0 to count
        invariant if found then first < i && first < count && rdpmonitors[..] == a[first := a[first].(primary := true)]
                  else rdpmonitors[..] == a && first == FirstAtOrigin(a, count, i)
      {
        if !found && rdpmonitors[i].x == 0 && rdpmonitors[i].y == 0 {
          rdpmonitors[i] := rdpmonitors[i].(primary := true);
          found := true;
        }
      }
      return true;
    }

    /** The size asked for and the work area, before the monitors are looked at. */
    method WorkAreaAndSize(current: nat, q: Query) returns (w: u32, h: u32)
      requires Valid() && (areas != [] ==> current < |areas|)
      modifies this`workArea
      ensures workArea == WorkAreaOf(settings, areas, current, q)
      ensures (w, h) == AskedSize(settings, areas, current, workArea, q)
      ensures !settings.fullscreen && !settings.workarea && 1 <= settings.percentScreen <= 100 && areas != [] ==>
                w <= areas[current].Width() && h <= areas[current].Height()
    {
      if !settings.remoteApplication && q.workArea.Some? {
        workArea := q.workArea.value;
      } else if settings.numMonitorIds == 1 && current < |areas| {
        var a := areas[current];
        workArea := WorkArea(a.left, a.top, a.Width(), a.Height());
      } else {
        workArea := WorkArea(0, 0, q.screenWidth, q.screenHeight);
      }
      w, h := settings.desktopWidth, settings.desktopHeight;
      if settings.fullscreen {
        w, h := q.screenWidth, q.screenHeight;
      } else if settings.workarea {
        w, h := workArea.width, workArea.height;
      } else if settings.percentScreen != 0 {
        if areas != [] {
          w, h := areas[current].Width(), areas[current].Height();
          if settings.percentScreen <= 100 {
            AskedWithinMonitor(settings, areas, current, workArea, q);
          }
        } else {
          w, h := workArea.width, workArea.height;
        }
        if settings.useWidth {
          w := Wrap32(w * settings.percentScreen) / 100;
        }
        if settings.useHeight {
          h := Wrap32(h * settings.percentScreen) / 100;
        }
      }
    }

    /** The monitors listed with one of them primary, the rectangle around them,
        and the size cut to it. */
    method ArrangeMonitors(current: nat, w: u32, h: u32, q: Query)
      returns (status: Status, maxWidth: u32, maxHeight: u32, listed: seq<Monitor>)
      requires Valid() && areas != [] && current < |areas|
      modifies this`settings, this`edges, this`area
      ensures match Arrange(old(Ctx()), current, w, h, q)
              case Stopped => status == Abort
              case Done(c, mw, mh, l) =>
                status == Ok && Ctx() == c && maxWidth == mw && maxHeight == mh && listed == l
    {
      hide Listing, Fold, IsActive, LookupIndex;
      status, maxWidth, maxHeight, listed := Abort, w, h, [];
      var rdpmonitors := new Monitor[|areas| + 1](_ => ZERO);
      var count, primaryFound := FillMonitors(rdpmonitors, current, w, h);
      if settings.percentScreen > 100 {
        return;
      }
      ghost var l := Listing(settings, areas, current, w, h);
      assert rdpmonitors[..count] == rdpmonitors[..][..count] == l;
      var v := BoundingRectangle(rdpmonitors, count);
      var found := VirtualArea(v, settings, workArea);
      if found.None? {
        return;
      }
      area := found.value;
      if !primaryFound {
        var ok := FindPrimary(rdpmonitors, count, q.screenNumber);
        if !ok {
          return;
        }
      }
      assert ChoosePrimary(Allocated(l, |areas|), count, LookupIndex(settings, q.screenNumber))
          == Some(rdpmonitors[..]);
      settings := settings.(monitorCount := count, layoutPdu := settings.layoutPdu || count > 1);
      return Ok, Min(w, area.Width()), Min(h, area.Height()), rdpmonitors[..count];
    }

    method DetectMonitors(q: Query) returns (status: Status, maxWidth: u32, maxHeight: u32, listed: seq<Monitor>)
      requires Valid()
      modifies this
      ensures match Detect(old(Ctx()), q)
              case Stopped => status == Abort
              case Done(c, w, h, l) =>
                status == Ok && Valid() && Ctx() == c && maxWidth == w && maxHeight == h && listed == l
    {
      hide Arrange, WorkAreaOf, AskedSize, Screens, CurrentFrom;
      status, maxWidth, maxHeight, listed := Ok, settings.desktopWidth, settings.desktopHeight, [];
      if settings.parentWindow {
        workArea := WorkArea(0, 0, maxWidth, maxHeight);
        return;
      }
      var ok := ReadScreens(q);
      if !ok {
        return Abort, maxWidth, maxHeight, [];
      }
      var x, y := 0, 0;
      if q.mouse.Some? {
        x, y := q.mouse.value.0, q.mouse.value.1;
      }
      edges := Edges(0, 0, 0, 0);
      var current := CurrentMonitor(x, y);
      settings := Requested(settings, current);
      maxWidth, maxHeight := WorkAreaAndSize(current, q);
      if areas == [] {
        settings := settings.(monitorCount := 0);
        return;
      }
      ArrangeKeepsAreas(Ctx(), current, maxWidth, maxHeight, q);
      status, maxWidth, maxHeight, listed := ArrangeMonitors(current, maxWidth, maxHeight, q);
    }
  }

  lemma PrimarySnoc(l: seq<Monitor>, m: Monitor)
    ensures HasPrimary(l + [m]) <==> HasPrimary(l) || m.primary
  {
    assert (l + [m])[|l|] == m;
    if HasPrimary(l) {
      var k :| 0 <= k < |l| && l[k].primary;
      assert (l + [m])[k] == l[k];
    }
  }

  lemma ArrangeKeepsAreas(c: Context, current: nat, maxWidth: u32, maxHeight: u32, q: Query)
    requires c.areas != [] && current < |c.areas|
    ensures var d := Arrange(c, current, maxWidth, maxHeight, q);
            d.Done? ==> d.c.areas == c.areas
  {
    hide Listing, Fold, VirtualArea, ChoosePrimary;
  }
}
