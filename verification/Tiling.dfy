/** Frames and the master/stack tiler (src/ptychite/view.c, monitor.c, server.c). */
module Tiling {
  import opened Primes

  const INT_MAX := 0x7fff_ffff

  /** C's integer division. */
  function CDiv(a: int, b: int): int
    requires b > 0
  {
    if a >= 0 then a / b else -((-a) / b)
  }

  /** C's conversion of a double to an int. */
  function Truncate(r: real): int {
    if r >= 0.0 then r.Floor else -((-r).Floor)
  }

  function Max(a: int, b: int): int { if a < b then b else a }
  function Min(a: int, b: int): int { if b < a then b else a }

  datatype Box = Box(x: int, y: int, width: int, height: int)

  predicate Inside(b: Box, x: int, y: int) { b.x <= x < b.x + b.width && b.y <= y < b.y + b.height }

  // ---- One frame ----------------------------------------------------------------------------------------

  /** The size limits that a client asks for; a maximum of 0 is no limit. */
  datatype Hints = Hints(minWidth: nat, minHeight: nat, maxWidth: nat, maxHeight: nat)

  /** border.thickness and the height of the panel font, which sizes the title bar. */
  datatype Style = Style(border: nat, fontHeight: nat)

  /** One dimension of ptychite_view_resize: the wanted size, limited by the hints plus the decoration. */
  function Limit(wanted: int, min: nat, max: nat, decoration: nat): (size: int)
    ensures size >= decoration
  {
    var atLeast := Max(min + decoration, wanted);
    if max > 0 && !(decoration > INT_MAX - max) then Min(max + decoration, atLeast) else atLeast
  }

  function TopThickness(style: Style, titleBar: bool): nat {
    if titleBar then style.fontHeight + style.fontHeight / 6 else style.border
  }

  function LimitWidth(wanted: int, hints: Hints, style: Style): int {
    Limit(wanted, hints.minWidth, hints.maxWidth, 2 * style.border)
  }

  function LimitHeight(wanted: int, hints: Hints, style: Style, titleBar: bool): int {
    Limit(wanted, hints.minHeight, hints.maxHeight, TopThickness(style, titleBar) + style.border)
  }

  /** Applying the limits twice is applying them once, also for contradictory hints. */
  lemma LimitIdempotent(wanted: int, min: nat, max: nat, decoration: nat)
    ensures Limit(Limit(wanted, min, max, decoration), min, max, decoration) == Limit(wanted, min, max, decoration)
  {
  }

  /** What the client itself gets respects consistent hints. */
  lemma LimitRespectsHints(wanted: int, min: nat, max: nat, decoration: nat)
    requires decoration <= INT_MAX - max && (max == 0 || min <= max)
    ensures var client := Limit(wanted, min, max, decoration) - decoration;
      min <= client && (max > 0 ==> client <= max)
    ensures wanted - decoration >= min && (max == 0 || wanted - decoration <= max) <==>
            Limit(wanted, min, max, decoration) == wanted
  {
  }

  /** The maximum wins over a greater minimum, unless with the decoration it would be too large a number. */
  lemma LimitContradicted(wanted: int, min: nat, max: nat, decoration: nat)
    requires 0 < max < min
    ensures Limit(wanted, min, max, decoration) ==
            if max + decoration <= 0x7fff_ffff then max + decoration
            else if wanted > min + decoration then wanted else min + decoration
  {
  }

  /** The scene nodes of a view, relative to its frame. */
  datatype Parts = Parts(head: Box, right: Box, bottom: Box, left: Box, surface: Box)

  function PartsOf(width: int, height: int, style: Style, titleBar: bool): Parts {
    var b, top := style.border, TopThickness(style, titleBar);
    Parts(Box(0, 0, width, top),
          Box(width - b, top, b, height - (top + b)),
          Box(0, height - b, width, b),
          Box(0, top, b, height - (top + b)),
          Box(b, top, width - 2 * b, height - (top + b)))
  }

  function Count(b: bool): nat { if b then 1 else 0 }

  /** How many parts cover a point. */
  function Cover(p: Parts, x: int, y: int): nat {
    Count(Inside(p.head, x, y)) + Count(Inside(p.right, x, y)) + Count(Inside(p.bottom, x, y))
    + Count(Inside(p.left, x, y)) + Count(Inside(p.surface, x, y))
  }

  /** Each part is on its side of the surface, which has the size left for the client. */
  lemma PartsAroundSurface(width: int, height: int, style: Style, titleBar: bool)
    ensures var p, b, top := PartsOf(width, height, style, titleBar), style.border, TopThickness(style, titleBar);
      && p.surface.width == width - 2 * b && p.surface.height == height - (top + b)
      && p.head.y == 0 && p.head.y + p.head.height == p.surface.y == top
      && p.left.x == 0 && p.left.x + p.left.width == p.surface.x == b
      && p.right.x == p.surface.x + p.surface.width && p.right.x + p.right.width == width
      && p.bottom.y == p.surface.y + p.surface.height && p.bottom.y + p.bottom.height == height
  {
  }

  /** Title bar or top border, the other borders and the surface tile the frame: no gap, no overlap, no excess. */
  lemma PartsTileFrame(wantedWidth: int, wantedHeight: int, hints: Hints, style: Style, titleBar: bool, x: int, y: int)
    ensures var w, h := LimitWidth(wantedWidth, hints, style), LimitHeight(wantedHeight, hints, style, titleBar);
      Cover(PartsOf(w, h, style, titleBar), x, y) == Count(Inside(Box(0, 0, w, h), x, y))
  {
  }

  /** The geometric part of a view. */
  class Frame {
    var x: int
    var y: int
    var width: int
    var height: int
    var hints: Hints
    var titleBar: bool      // the title bar exists and its node is enabled; the top border's node is off then
    var parts: Parts
    const style: Style

    constructor (hints: Hints, titleBar: bool, style: Style)
      ensures this.hints == hints && this.titleBar == titleBar && this.style == style
    {
      this.hints, this.titleBar, this.style := hints, titleBar, style;
      x, y, width, height, parts := 0, 0, 0, 0, PartsOf(0, 0, style, titleBar);
    }

    /** The wanted size, limited by the hints. */
    method FitSize(wantedWidth: int, wantedHeight: int, top: nat)
      requires top == TopThickness(style, titleBar)
      modifies this`width, this`height
      ensures width == LimitWidth(wantedWidth, hints, style)
      ensures height == LimitHeight(wantedHeight, hints, style, titleBar)
    {
      hide TopThickness;
      var b := style.border;
      width := Max(hints.minWidth + 2 * b, wantedWidth);
      height := Max(hints.minHeight + (top + b), wantedHeight);
      if hints.maxWidth > 0 && !(2 * b > INT_MAX - hints.maxWidth) {
        width := Min(hints.maxWidth + 2 * b, width);
      }
      if hints.maxHeight > 0 && !(top + b > INT_MAX - hints.maxHeight) {
        height := Min(hints.maxHeight + (top + b), height);
      }
    }

    /** The positions and sizes of the scene nodes. */
    method FitParts(top: nat)
      requires top == TopThickness(style, titleBar)
      modifies this`parts
      ensures parts == PartsOf(width, height, style, titleBar)
    {
      hide TopThickness;
      var b := style.border;
      var head := Box(0, 0, width, top);
      var surface := Box(b, top, width - 2 * b, height - (top + b));
      var right := Box(width - b, top, b, height - (top + b));
      var bottom := Box(0, height - b, width, b);
      var left := Box(0, top, b, height - (top + b));
      parts := Parts(head, right, bottom, left, surface);
    }

    /** ptychite_view_resize */
    method Resize(wantedWidth: int, wantedHeight: int)
      modifies this`width, this`height, this`parts
      ensures width == LimitWidth(wantedWidth, hints, style)
      ensures height == LimitHeight(wantedHeight, hints, style, titleBar)
      ensures parts == PartsOf(width, height, style, titleBar)
    {
      hide LimitWidth, LimitHeight, PartsOf;
      var top := if titleBar then style.fontHeight + style.fontHeight / 6 else style.border;
      FitSize(wantedWidth, wantedHeight, top);
      FitParts(top);
    }

    /** Resizing a frame to the size it has, as after a configuration change, changes nothing. */
    method ResizeToSelf(wantedWidth: int, wantedHeight: int)
      modifies this`width, this`height, this`parts
      ensures width == LimitWidth(wantedWidth, hints, style)
      ensures height == LimitHeight(wantedHeight, hints, style, titleBar)
    {
      Resize(wantedWidth, wantedHeight);
      LimitIdempotent(wantedWidth, hints.minWidth, hints.maxWidth, 2 * style.border);
      LimitIdempotent(wantedHeight, hints.minHeight, hints.maxHeight, TopThickness(style, titleBar) + style.border);
      Resize(width, height);
    }
  }

  // ---- One column ---------------------------------------------------------------------------------------

  /** What fixes the height of a view in a column. */
  datatype Slot = Slot(hints: Hints, style: Style, titleBar: bool)

  /** The height ptychite_monitor_tile asks for when the column's next free offset is y and r views remain. */
  function WantedHeight(total: int, gaps: int, y: int, r: int): int
    requires r > 0
  {
    CDiv(total - y - gaps * r, r)
  }

  /** The offset of the i-th view of a column. */
  function OffsetAt(column: seq<Slot>, total: int, gaps: int, i: nat): int
    requires i <= |column|
    decreases i, 0
  {
    if i == 0 then gaps else OffsetAt(column, total, gaps, i - 1) + HeightAt(column, total, gaps, i - 1) + gaps
  }

  function HeightAt(column: seq<Slot>, total: int, gaps: int, i: nat): (h: int)
    requires i < |column|
    ensures h >= 0
    decreases i, 1
  {
    var slot := column[i];
    LimitHeight(WantedHeight(total, gaps, OffsetAt(column, total, gaps, i), |column| - i),
                slot.hints, slot.style, slot.titleBar)
  }

  /** For any hints and any room, views of a column keep their order, exactly one gap between neighbours. */
  lemma {:induction false} ColumnNeverOverlaps(column: seq<Slot>, total: int, gaps: nat, i: nat, j: nat)
    requires i < j < |column|
    ensures OffsetAt(column, total, gaps, j) >= OffsetAt(column, total, gaps, i) + HeightAt(column, total, gaps, i) + gaps
    ensures j == i + 1 ==>
              OffsetAt(column, total, gaps, j) == OffsetAt(column, total, gaps, i) + HeightAt(column, total, gaps, i) + gaps
  {
    if i + 1 < j {
      ColumnNeverOverlaps(column, total, gaps, i, j - 1);
    }
  }

  /** The room that n views share once every gap is taken. */
  function Room(total: int, gaps: int, n: int): int { total - gaps - gaps * n }

  /** The first n - room % n views get the share rounded down, the others one more. */
  function FairHeight(room: int, n: int, i: int): int
    requires n > 0
  {
    if i < n - room % n then room / n else room / n + 1
  }

  /** No view's fair height is limited by its hints. */
  predicate Unlimited(column: seq<Slot>, room: int)
    requires column != []
  {
    forall i :: 0 <= i < |column| ==>
      var h := FairHeight(room, |column|, i);
      LimitHeight(h, column[i].hints, column[i].style, column[i].titleBar) == h
  }

  function FairOffset(room: int, gaps: int, n: int, i: int): int
    requires n > 0
  {
    gaps + i * gaps + i * (room / n) + Max(0, i - (n - room % n))
  }

  lemma RoomSplits(room: nat, n: nat, i: nat)
    requires i < n
    ensures var q, m := room / n, room % n;
      var left := room - i * q - Max(0, i - (n - m));
      left == (n - i) * q + Min(m, n - i) && q >= 0 && left >= 0
  {
    var q, m := room / n, room % n;
    DivisionParts(room, n);
    Distribute(n, i, q);
    ProductNonNegative(n - i, q);
    SplitLinear(room, n, i, m, n * q, i * q, (n - i) * q);
  }

  lemma DivisionParts(room: nat, n: nat)
    requires n > 0
    ensures room == n * (room / n) + room % n && 0 <= room % n < n && room / n >= 0
  {
  }

  lemma Distribute(n: int, i: int, q: int)
    ensures (n - i) * q == n * q - i * q
  {
  }

  lemma ProductNonNegative(a: nat, b: nat)
    ensures a * b >= 0
  {
  }

  lemma SplitLinear(room: int, n: int, i: int, m: int, nq: int, iq: int, rest: int)
    requires 0 <= i < n && 0 <= m < n && room == nq + m && rest == nq - iq && rest >= 0
    ensures var left := room - iq - Max(0, i - (n - m)); left == rest + Min(m, n - i) && left >= 0
  {
  }

  /** What is left for the last n - i views, shared again, is what a fair division gives the next one. */
  lemma FairStep(room: nat, n: nat, i: nat)
    requires i < n
    ensures CDiv(room - i * (room / n) - Max(0, i - (n - room % n)), n - i) == FairHeight(room, n, i)
  {
    var q, m, r := room / n, room % n, n - i;
    RoomSplits(room, n, i);
    if m < r {
      ModUnique(r * q + m, q, m, r);
    } else {
      assert r * q + r == r * (q + 1) + 0;
      ModUnique(r * q + r, q + 1, 0, r);
    }
  }

  /** The first i views have their fair heights. */
  predicate FairUpTo(column: seq<Slot>, total: int, gaps: nat, i: nat)
    requires i <= |column|
  {
    forall j :: 0 <= j < i ==> HeightAt(column, total, gaps, j) == FairHeight(Room(total, gaps, |column|), |column|, j)
  }

  /** After fair heights the next offset is fair, and the height asked for there is too. */
  lemma {:induction false} FairSoFar(column: seq<Slot>, total: int, gaps: nat, i: nat)
    requires i <= |column| && column != [] && Room(total, gaps, |column|) >= 0 && FairUpTo(column, total, gaps, i)
    ensures var n, y := |column|, OffsetAt(column, total, gaps, i);
      var room := Room(total, gaps, n);
      && y == FairOffset(room, gaps, n, i)
      && (i < n ==> WantedHeight(total, gaps, y, n - i) == FairHeight(room, n, i))
  {
    hide HeightAt, FairHeight, FairOffset;
    var n := |column|;
    var room := Room(total, gaps, n);
    if i > 0 {
      FairSoFar(column, total, gaps, i - 1);
      FairOffsetStep(room, gaps, n, i - 1);
    } else {
      FairOffsetStart(room, gaps, n);
    }
    if i < n {
      FairStep(room, n, i);
      RestOfRoom(total, gaps, n, i);
    }
  }

  /** With room for all, a column is a fair division of its room exactly if no fair height is limited. */
  lemma ColumnIsFair(column: seq<Slot>, total: int, gaps: nat)
    requires column != [] && Room(total, gaps, |column|) >= 0
    ensures Unlimited(column, Room(total, gaps, |column|)) <==> FairUpTo(column, total, gaps, |column|)
    ensures Unlimited(column, Room(total, gaps, |column|)) ==>
      forall i :: 0 <= i <= |column| ==>
        OffsetAt(column, total, gaps, i) == FairOffset(Room(total, gaps, |column|), gaps, |column|, i)
  {
    hide LimitHeight, FairHeight, FairOffset, WantedHeight, OffsetAt;
    var n, room := |column|, Room(total, gaps, |column|);
    if Unlimited(column, room) {
      FairFrom(column, total, gaps, n);
      forall i | 0 <= i <= n ensures OffsetAt(column, total, gaps, i) == FairOffset(room, gaps, n, i) {
        FairSoFar(column, total, gaps, i);
      }
    }
    if FairUpTo(column, total, gaps, n) {
      forall i | 0 <= i < n
        ensures var h := FairHeight(room, n, i);
          LimitHeight(h, column[i].hints, column[i].style, column[i].titleBar) == h
      {
        FairSoFar(column, total, gaps, i);
      }
    }
  }

  lemma {:induction false} FairFrom(column: seq<Slot>, total: int, gaps: nat, i: nat)
    requires i <= |column| && column != [] && Room(total, gaps, |column|) >= 0
    requires Unlimited(column, Room(total, gaps, |column|))
    ensures FairUpTo(column, total, gaps, i)
  {
    hide LimitHeight, FairHeight, WantedHeight, OffsetAt;
    if i > 0 {
      FairFrom(column, total, gaps, i - 1);
      FairSoFar(column, total, gaps, i - 1);
    }
  }

  lemma FairOffsetStart(room: nat, gaps: nat, n: nat)
    requires n > 0
    ensures FairOffset(room, gaps, n, 0) == gaps
  {
  }

  lemma FairOffsetStep(room: nat, gaps: nat, n: nat, i: nat)
    requires i < n
    ensures FairOffset(room, gaps, n, i + 1) == FairOffset(room, gaps, n, i) + FairHeight(room, n, i) + gaps
  {
    var q := room / n;
    assert (i + 1) * q == i * q + q && (i + 1) * gaps == i * gaps + gaps;
  }

  lemma RestOfRoom(total: int, gaps: nat, n: nat, i: nat)
    requires i < n && Room(total, gaps, n) >= 0
    ensures var room := Room(total, gaps, n);
      total - FairOffset(room, gaps, n, i) - gaps * (n - i) == room - i * (room / n) - Max(0, i - (n - room % n))
  {
    assert gaps * (n - i) == gaps * n - i * gaps;
  }

  lemma FairOffsetEnd(room: nat, gaps: nat, n: nat)
    requires n > 0
    ensures FairOffset(room, gaps, n, n) == gaps + gaps * n + room
  {
    assert n * (room / n) + room % n == room;
    assert n * gaps == gaps * n;
  }

  lemma ColumnEnds(column: seq<Slot>, total: int, gaps: nat)
    requires column != [] && Room(total, gaps, |column|) >= 0
    requires Unlimited(column, Room(total, gaps, |column|))
    ensures OffsetAt(column, total, gaps, |column|) == total
  {
    hide OffsetAt, FairOffset, Unlimited;
    ColumnIsFair(column, total, gaps);
    FairOffsetEnd(Room(total, gaps, |column|), gaps, |column|);
  }

  lemma HeightsAreFair(column: seq<Slot>, total: int, gaps: nat, i: nat, j: nat)
    requires column != [] && Room(total, gaps, |column|) >= 0 && i < j < |column|
    requires Unlimited(column, Room(total, gaps, |column|))
    ensures HeightAt(column, total, gaps, i) <= HeightAt(column, total, gaps, j) <= HeightAt(column, total, gaps, i) + 1
  {
    hide Unlimited, HeightAt, OffsetAt, Room;
    ColumnIsFair(column, total, gaps);
  }

  /** A column starts one gap below the top, ends one gap above the bottom, and heights grow by 1 at most. */
  lemma ColumnFillsExactly(column: seq<Slot>, total: int, gaps: nat)
    requires column != [] && Room(total, gaps, |column|) >= 0
    requires Unlimited(column, Room(total, gaps, |column|))
    ensures OffsetAt(column, total, gaps, 0) == gaps
    ensures var n := |column|;
      OffsetAt(column, total, gaps, n - 1) + HeightAt(column, total, gaps, n - 1) == total - gaps
    ensures forall i, j :: 0 <= i < j < |column| ==>
      HeightAt(column, total, gaps, i) <= HeightAt(column, total, gaps, j) <= HeightAt(column, total, gaps, i) + 1
  {
    hide Unlimited, HeightAt;
    ColumnEnds(column, total, gaps);
    forall i, j | 0 <= i < j < |column|
      ensures HeightAt(column, total, gaps, i) <= HeightAt(column, total, gaps, j) <= HeightAt(column, total, gaps, i) + 1
    {
      HeightsAreFair(column, total, gaps, i, j);
    }
  }

  /** No view is higher than what is asked for it. */
  predicate Unenlarged(column: seq<Slot>, total: int, gaps: int) {
    forall i :: 0 <= i < |column| ==>
      HeightAt(column, total, gaps, i) <= WantedHeight(total, gaps, OffsetAt(column, total, gaps, i), |column| - i)
  }

  /** A share of what is left, rounded down, leaves room for the others. */
  lemma ShareLeaves(room: int, r: int, h: int)
    requires room >= 0 && r > 0 && h <= CDiv(room, r)
    ensures room - h >= 0
  {
    QuotientAtMost(room, r);
  }

  lemma QuotientAtMost(room: int, r: int)
    requires room >= 0 && r > 0
    ensures room / r <= room
  {
    var q := room / r;
    DivisionParts(room, r);
    if q > 0 { MulAtLeast(q, r); }
    hide CDiv;
    assert r * q == q * r;
  }

  /** While no view is enlarged, the views that remain have room left. */
  lemma {:induction false} RoomRemains(column: seq<Slot>, total: int, gaps: nat, i: nat)
    requires i <= |column| && Room(total, gaps, |column|) >= 0 && Unenlarged(column, total, gaps)
    ensures total - OffsetAt(column, total, gaps, i) - gaps * (|column| - i) >= 0
  {
    hide HeightAt, CDiv;
    if i > 0 {
      var y, r := OffsetAt(column, total, gaps, i - 1), |column| - (i - 1);
      RoomRemains(column, total, gaps, i - 1);
      ShareLeaves(total - y - gaps * r, r, HeightAt(column, total, gaps, i - 1));
      Distribute(r, 1, gaps);
      assert gaps * r == r * gaps && gaps * (r - 1) == (r - 1) * gaps;
    } else {
      assert gaps * |column| == gaps * (|column| - 0);
    }
  }

  /** With room for all, a column whose views are not enlarged stays one gap away from the top and the bottom. */
  lemma ColumnStaysInside(column: seq<Slot>, total: int, gaps: nat, i: nat)
    requires i < |column| && Room(total, gaps, |column|) >= 0 && Unenlarged(column, total, gaps)
    ensures gaps <= OffsetAt(column, total, gaps, i)
    ensures OffsetAt(column, total, gaps, i) + HeightAt(column, total, gaps, i) <= total - gaps
  {
    hide HeightAt, Unenlarged;
    OffsetStart(column, total, gaps);
    if i > 0 { ColumnNeverOverlaps(column, total, gaps, 0, i); }
    RoomRemains(column, total, gaps, i + 1);
    ProductNonNegative(gaps, |column| - (i + 1));
  }

  // ---- The tiler ----------------------------------------------------------------------------------------

  /** workspace->tiling.traditional */
  class Layout {
    var viewsInMaster: int
    var masterFactor: real
    var rightMaster: bool

    ghost predicate Valid()
      reads this
    {
      0 <= viewsInMaster <= 100 && 0.05 <= masterFactor <= 0.95
    }

    constructor ()
      ensures Valid() && viewsInMaster == 1 && masterFactor == 0.55 && !rightMaster
    {
      viewsInMaster, masterFactor, rightMaster := 1, 0.55, false;
    }

    /** ptychite_server_tiling_change_views_in_master; retile says whether the monitor is tiled again. */
    method ChangeViewsInMaster(delta: int) returns (retile: bool)
      requires Valid()
      modifies this`viewsInMaster
      ensures Valid() && (retile <==> viewsInMaster != old(viewsInMaster))
      ensures viewsInMaster == Max(0, Min(100, old(viewsInMaster) + delta))
    {
      var n := viewsInMaster + delta;
      if n > 100 {
        n := 100;
      } else if n < 0 {
        n := 0;
      }
      if n == viewsInMaster {
        return false;
      }
      viewsInMaster := n;
      return true;
    }

    /** ptychite_server_tiling_change_master_factor */
    method ChangeMasterFactor(delta: real) returns (retile: bool)
      requires Valid()
      modifies this`masterFactor
      ensures Valid() && (retile <==> masterFactor != old(masterFactor))
      ensures 0.05 <= old(masterFactor) + delta <= 0.95 ==> masterFactor == old(masterFactor) + delta
      ensures old(masterFactor) + delta > 0.95 ==> masterFactor == 0.95
      ensures old(masterFactor) + delta < 0.05 ==> masterFactor == 0.05
    {
      var f := masterFactor + delta;
      if f > 0.95 {
        f := 0.95;
      } else if f < 0.05 {
        f := 0.05;
      }
      if f == masterFactor {
        return false;
      }
      masterFactor := f;
      return true;
    }
  }

  function MasterCount(n: nat, viewsInMaster: nat): nat { Min(n, viewsInMaster) }

  /** The master column's share of the width. */
  function Share(width: int, gaps: int, factor: real): real { (width + gaps) as real * factor }

  function MasterWidth(width: int, gaps: int, n: nat, viewsInMaster: nat, factor: real): int {
    if n > viewsInMaster then (if viewsInMaster != 0 then Truncate(Share(width, gaps, factor)) else 0)
    else width - gaps
  }

  function MasterX(geo: Box, gaps: int, masterWidth: int, right: bool): int {
    geo.x + if right then geo.width - masterWidth else gaps
  }

  function StackX(geo: Box, gaps: int, masterWidth: int, right: bool): int {
    geo.x + if right then gaps else masterWidth + gaps
  }

  function SlotOf(f: Frame): Slot
    reads f
  {
    Slot(f.hints, f.style, f.titleBar)
  }

  function Slots(frames: seq<Frame>): (r: seq<Slot>)
    reads frames
    ensures |r| == |frames|
  {
    seq(|frames|, i requires 0 <= i < |frames| reads frames => SlotOf(frames[i]))
  }

  /** f is the i-th view of a column at x, with the width asked for it. */
  ghost predicate StandsAt(f: Frame, geo: Box, x: int, wantedWidth: int, gaps: int, column: seq<Slot>, i: nat)
    reads f
    requires i < |column|
  {
    && f.x == x && f.y == geo.y + OffsetAt(column, geo.height, gaps, i)
    && f.width == LimitWidth(wantedWidth, f.hints, f.style)
    && f.height == HeightAt(column, geo.height, gaps, i)
    && f.parts == PartsOf(f.width, f.height, f.style, f.titleBar)
  }

  /** The frame f at index i is where the tiling of all frames puts it. */
  ghost predicate Tiled(f: Frame, slots: seq<Slot>, geo: Box, gaps: nat, k: nat, masterWidth: int, right: bool, i: nat)
    reads f
    requires k <= |slots| && i < |slots|
  {
    if i < k then
      StandsAt(f, geo, MasterX(geo, gaps, masterWidth, right), masterWidth - gaps, gaps, slots[..k], i)
    else
      StandsAt(f, geo, StackX(geo, gaps, masterWidth, right), geo.width - masterWidth - 2 * gaps, gaps,
               slots[k..], i - k)
  }

  /** The width of the master column and the left edges of both columns. */
  method Columns(geo: Box, n: nat, gaps: nat, viewsInMaster: nat, factor: real, right: bool)
    returns (masterWidth: int, masterX: int, stackX: int)
    ensures masterWidth == MasterWidth(geo.width, gaps, n, viewsInMaster, factor)
    ensures masterX == MasterX(geo, gaps, masterWidth, right) && stackX == StackX(geo, gaps, masterWidth, right)
  {
    if n > viewsInMaster {
      masterWidth := if viewsInMaster != 0 then Truncate((geo.width + gaps) as real * factor) else 0;
    } else {
      masterWidth := geo.width - gaps;
    }
    masterX := geo.x + if right then geo.width - masterWidth else gaps;
    stackX := geo.x + if right then gaps else masterWidth + gaps;
  }

  /** The frames keep what fixes their heights. */
  ghost predicate SlotsAre(frames: seq<Frame>, slots: seq<Slot>)
    reads frames
  {
    |frames| == |slots| && forall j :: 0 <= j < |frames| ==> SlotOf(frames[j]) == slots[j]
  }

  /** The first i frames are where the tiling of all frames puts them. */
  ghost predicate TiledUpTo(frames: seq<Frame>, slots: seq<Slot>, geo: Box, gaps: nat, k: nat, masterWidth: int,
                            right: bool, i: nat)
    reads frames
    requires k <= |slots| && i <= |slots| == |frames|
  {
    forall j :: 0 <= j < i ==> Tiled(frames[j], slots, geo, gaps, k, masterWidth, right, j)
  }

  /** No frame is in the list twice. */
  ghost predicate Apart(frames: seq<Frame>) { forall i, j :: 0 <= i < j < |frames| ==> frames[i] != frames[j] }

  /**
   The frames from place lo on are a column of these views: one gap from each to the next, the first one gap below the
   top, and, with room for all and no fair height limited, the last one gap above the bottom.
   */
  ghost predicate Stacked(frames: seq<Frame>, geo: Box, gaps: nat, column: seq<Slot>, lo: nat)
    requires lo + |column| <= |frames|
    reads frames
  {
    var n := |column|;
    && (forall i, j :: lo <= i < j < lo + n ==> frames[i].y + frames[i].height + gaps <= frames[j].y)
    && (forall i :: lo <= i < lo + n - 1 ==> frames[i].y + frames[i].height + gaps == frames[i + 1].y)
    && (n > 0 ==> frames[lo].y == geo.y + gaps)
    && (n > 0 && Room(geo.height, gaps, n) >= 0 && Unlimited(column, Room(geo.height, gaps, n)) ==>
          frames[lo + n - 1].y + frames[lo + n - 1].height == geo.y + geo.height - gaps)
  }

  /** Frames that stand in their column's places are stacked. */
  lemma StandingStacked(frames: seq<Frame>, geo: Box, gaps: nat, column: seq<Slot>, lo: nat)
    requires lo + |column| <= |frames|
    requires forall i :: 0 <= i < |column| ==>
      && frames[lo + i].y == geo.y + OffsetAt(column, geo.height, gaps, i)
      && frames[lo + i].height == HeightAt(column, geo.height, gaps, i)
    ensures Stacked(frames, geo, gaps, column, lo)
  {
    hide OffsetAt, HeightAt, Unlimited;
    var n := |column|;
    forall i, j | lo <= i < j < lo + n
      ensures frames[i].y + frames[i].height + gaps <= frames[j].y
      ensures j == i + 1 ==> frames[i].y + frames[i].height + gaps == frames[j].y
    {
      ColumnNeverOverlaps(column, geo.height, gaps, i - lo, j - lo);
      assert frames[lo + (i - lo)] == frames[i] && frames[lo + (j - lo)] == frames[j];
    }
    if n > 0 {
      OffsetStart(column, geo.height, gaps);
      assert frames[lo + 0] == frames[lo] && frames[lo + (n - 1)] == frames[lo + n - 1];
      if Room(geo.height, gaps, n) >= 0 && Unlimited(column, Room(geo.height, gaps, n)) {
        ColumnFillsExactly(column, geo.height, gaps);
      }
    }
  }

  lemma NothingStacked(geo: Box, gaps: nat)
    ensures Stacked([], geo, gaps, [], 0)
  {
  }

  lemma MasterStacked(frames: seq<Frame>, slots: seq<Slot>, geo: Box, gaps: nat, k: nat, masterWidth: int, right: bool)
    requires k <= |slots| == |frames| && TiledUpTo(frames, slots, geo, gaps, k, masterWidth, right, |frames|)
    ensures Stacked(frames, geo, gaps, slots[..k], 0)
  {
    hide Stacked, OffsetAt, HeightAt, LimitWidth, MasterX, StackX, PartsOf;
    forall i | 0 <= i < k
      ensures frames[0 + i].y == geo.y + OffsetAt(slots[..k], geo.height, gaps, i)
      ensures frames[0 + i].height == HeightAt(slots[..k], geo.height, gaps, i)
    {
      assert Tiled(frames[i], slots, geo, gaps, k, masterWidth, right, i);
    }
    StandingStacked(frames, geo, gaps, slots[..k], 0);
  }

  lemma StackStacked(frames: seq<Frame>, slots: seq<Slot>, geo: Box, gaps: nat, k: nat, masterWidth: int, right: bool)
    requires k <= |slots| == |frames| && TiledUpTo(frames, slots, geo, gaps, k, masterWidth, right, |frames|)
    ensures Stacked(frames, geo, gaps, slots[k..], k)
  {
    hide Stacked, OffsetAt, HeightAt, LimitWidth, MasterX, StackX, PartsOf;
    forall i | 0 <= i < |slots| - k
      ensures frames[k + i].y == geo.y + OffsetAt(slots[k..], geo.height, gaps, i)
      ensures frames[k + i].height == HeightAt(slots[k..], geo.height, gaps, i)
    {
      assert Tiled(frames[k + i], slots, geo, gaps, k, masterWidth, right, k + i);
    }
    StandingStacked(frames, geo, gaps, slots[k..], k);
  }

  function BoxOf(f: Frame): Box
    reads f
  {
    Box(f.x, f.y, f.width, f.height)
  }

  /** Whatever the hints, no point lies in two frames of a column. */
  lemma StackedDisjoint(frames: seq<Frame>, geo: Box, gaps: nat, column: seq<Slot>, lo: nat, i: nat, j: nat, x: int,
                        y: int)
    requires lo + |column| <= |frames| && Stacked(frames, geo, gaps, column, lo)
    requires lo <= i < lo + |column| && lo <= j < lo + |column| && i != j
    ensures !(Inside(BoxOf(frames[i]), x, y) && Inside(BoxOf(frames[j]), x, y))
  {
    hide Unlimited, Room;
  }

  /** ptychite_monitor_tile in traditional mode */
  method Tile(geo: Box, frames: seq<Frame>, gaps: nat, viewsInMaster: nat, factor: real, right: bool)
    requires Apart(frames)
    modifies frames
    ensures SlotsAre(frames, old(Slots(frames)))
    ensures var n, slots := |frames|, old(Slots(frames));
      var masterWidth := MasterWidth(geo.width, gaps, n, viewsInMaster, factor);
      TiledUpTo(frames, slots, geo, gaps, MasterCount(n, viewsInMaster), masterWidth, right, n)
    ensures var n, k, slots := |frames|, MasterCount(|frames|, viewsInMaster), old(Slots(frames));
      && Stacked(frames, geo, gaps, slots[..k], 0)
      && Stacked(frames, geo, gaps, slots[k..], k)
  {
    hide TiledUpTo, MasterWidth, MasterX, StackX, SlotsAre, Apart, Stacked;
    ghost var slots, k := Slots(frames), MasterCount(|frames|, viewsInMaster);
    SlotsStart(frames);
    var masterWidth, masterX, stackX := Columns(geo, |frames|, gaps, viewsInMaster, factor, right);
    if frames == [] {
      NoneTiled(frames, slots, geo, gaps, k, masterWidth, right);
      NothingStacked(geo, gaps);
      return;
    }
    TileColumns(geo, frames, gaps, viewsInMaster, masterWidth, masterX, stackX, right, k, slots);
    MasterStacked(frames, slots, geo, gaps, k, masterWidth, right);
    StackStacked(frames, slots, geo, gaps, k, masterWidth, right);
  }

  /** The loop over the views. */
  method TileColumns(geo: Box, frames: seq<Frame>, gaps: nat, viewsInMaster: nat, masterWidth: int, masterX: int,
                     stackX: int, ghost right: bool, ghost k: nat, ghost slots: seq<Slot>)
    requires Apart(frames) && SlotsAre(frames, slots) && |slots| == |frames| && k == MasterCount(|frames|, viewsInMaster)
    requires masterX == MasterX(geo, gaps, masterWidth, right) && stackX == StackX(geo, gaps, masterWidth, right)
    modifies frames
    ensures SlotsAre(frames, slots)
    ensures TiledUpTo(frames, slots, geo, gaps, k, masterWidth, right, |frames|)
  {
    hide Tiled, OffsetAt, MasterX, StackX, Apart, TiledUpTo, SlotsAre;
    var n := |frames|;
    var masterY, stackY := gaps as int, gaps as int;
    ghost var master, stack := slots[..k], slots[k..];
    OffsetStart(master, geo.height, gaps);
    OffsetStart(stack, geo.height, gaps);
    NoneTiled(frames, slots, geo, gaps, k, masterWidth, right);
    for i := 0 to n
      invariant SlotsAre(frames, slots)
      invariant masterY == OffsetAt(master, geo.height, gaps, if i < k then i else k)
      invariant stackY == OffsetAt(stack, geo.height, gaps, if i < k then 0 else i - k)
      invariant TiledUpTo(frames, slots, geo, gaps, k, masterWidth, right, i)
    {
      if i < viewsInMaster {
        masterY := PlaceMaster(geo, frames, gaps, k, i, masterX, masterWidth, masterY, Min(n, viewsInMaster) - i,
                               slots, right);
      } else {
        stackY := PlaceStack(geo, frames, gaps, k, i, stackX, masterWidth, stackY, n - i, slots, right);
      }
    }
  }

  lemma SlotsStart(frames: seq<Frame>)
    ensures SlotsAre(frames, Slots(frames))
  {
  }

  lemma NoneTiled(frames: seq<Frame>, slots: seq<Slot>, geo: Box, gaps: nat, k: nat, masterWidth: int, right: bool)
    requires k <= |slots| == |frames|
    ensures TiledUpTo(frames, slots, geo, gaps, k, masterWidth, right, 0)
  {
  }

  /** One turn of the loop for a view of the master column. */
  method PlaceMaster(geo: Box, frames: seq<Frame>, gaps: nat, ghost k: nat, i: nat, x: int, masterWidth: int, y: int,
                     r: int, ghost slots: seq<Slot>, ghost right: bool) returns (next: int)
    requires Apart(frames) && SlotsAre(frames, slots) && i < k <= |frames| && r == k - i
    requires x == MasterX(geo, gaps, masterWidth, right) && y == OffsetAt(slots[..k], geo.height, gaps, i)
    requires TiledUpTo(frames, slots, geo, gaps, k, masterWidth, right, i)
    modifies frames[i]
    ensures SlotsAre(frames, slots) && TiledUpTo(frames, slots, geo, gaps, k, masterWidth, right, i + 1)
    ensures next == OffsetAt(slots[..k], geo.height, gaps, i + 1)
  {
    hide OffsetAt, MasterX, StackX, StandsAt;
    next := PlaceInColumn(frames[i], geo, x, masterWidth - gaps, gaps, y, r, slots[..k], i);
  }

  /** One turn of the loop for a view of the stack column. */
  method PlaceStack(geo: Box, frames: seq<Frame>, gaps: nat, ghost k: nat, i: nat, x: int, masterWidth: int, y: int,
                    r: int, ghost slots: seq<Slot>, ghost right: bool) returns (next: int)
    requires Apart(frames) && SlotsAre(frames, slots) && k <= i < |frames| && r == |frames| - i
    requires x == StackX(geo, gaps, masterWidth, right) && y == OffsetAt(slots[k..], geo.height, gaps, i - k)
    requires TiledUpTo(frames, slots, geo, gaps, k, masterWidth, right, i)
    modifies frames[i]
    ensures SlotsAre(frames, slots) && TiledUpTo(frames, slots, geo, gaps, k, masterWidth, right, i + 1)
    ensures next == OffsetAt(slots[k..], geo.height, gaps, i + 1 - k)
  {
    hide OffsetAt, MasterX, StackX, StandsAt;
    next := PlaceInColumn(frames[i], geo, x, geo.width - masterWidth - 2 * gaps, gaps, y, r, slots[k..], i - k);
  }

  lemma OffsetStart(column: seq<Slot>, total: int, gaps: int)
    ensures OffsetAt(column, total, gaps, 0) == gaps
  {
  }

  /** One turn of the loop: the view takes its place, and the offset of the next one is returned. */
  method PlaceInColumn(view: Frame, geo: Box, x: int, width: int, gaps: nat, y: int, r: int,
                       ghost column: seq<Slot>, ghost i: nat) returns (next: int)
    requires i < |column| && column[i] == SlotOf(view) && r == |column| - i && y == OffsetAt(column, geo.height, gaps, i)
    modifies view`x, view`y, view`width, view`height, view`parts
    ensures StandsAt(view, geo, x, width, gaps, column, i)
    ensures next == OffsetAt(column, geo.height, gaps, i + 1)
  {
    var height := CDiv(geo.height - y - gaps * r, r);
    Place(view, x, geo.y + y, width, height);
    next := y + view.height + gaps;
  }

  /** wlr_scene_node_set_position, then ptychite_view_resize */
  method Place(view: Frame, x: int, y: int, width: int, height: int)
    modifies view`x, view`y, view`width, view`height, view`parts
    ensures view.x == x && view.y == y
    ensures view.width == LimitWidth(width, view.hints, view.style)
    ensures view.height == LimitHeight(height, view.hints, view.style, view.titleBar)
    ensures view.parts == PartsOf(view.width, view.height, view.style, view.titleBar)
  {
    view.x, view.y := x, y;
    view.Resize(width, height);
  }

  /** The x of a span of the given width when the monitor is mirrored. */
  function Mirror(geo: Box, x: int, width: int): int { 2 * geo.x + geo.width - x - width }

  /** The columns are one gap from the sides and from each other, and right-master mirrors left-master. */
  lemma ColumnsFit(geo: Box, gaps: int, masterWidth: int, right: bool)
    ensures (if right then StackX(geo, gaps, masterWidth, right) else MasterX(geo, gaps, masterWidth, right)) == geo.x + gaps
    ensures var mx, mw := MasterX(geo, gaps, masterWidth, right), masterWidth - gaps;
      var sx, sw := StackX(geo, gaps, masterWidth, right), geo.width - masterWidth - 2 * gaps;
      && (if right then sx + sw + gaps == mx else mx + mw + gaps == sx)
      && (if right then mx + mw else sx + sw) == geo.x + geo.width - gaps
    ensures MasterX(geo, gaps, masterWidth, !right) == Mirror(geo, MasterX(geo, gaps, masterWidth, right), masterWidth - gaps)
    ensures StackX(geo, gaps, masterWidth, !right) ==
            Mirror(geo, StackX(geo, gaps, masterWidth, right), geo.width - masterWidth - 2 * gaps)
  {
  }

  // ---- Where the frames end up --------------------------------------------------------------------------

  /** The width that is asked for a view, by the column of its place. */
  function WantedWidth(geo: Box, gaps: int, masterWidth: int, master: bool): int {
    if master then masterWidth - gaps else geo.width - masterWidth - 2 * gaps
  }

  /** The tiled frame's left edge and its width. */
  lemma TiledSpan(f: Frame, slots: seq<Slot>, geo: Box, gaps: nat, k: nat, masterWidth: int, right: bool, i: nat)
    requires k <= |slots| && i < |slots| && Tiled(f, slots, geo, gaps, k, masterWidth, right, i)
    ensures f.x == if i < k then MasterX(geo, gaps, masterWidth, right) else StackX(geo, gaps, masterWidth, right)
    ensures f.width == LimitWidth(WantedWidth(geo, gaps, masterWidth, i < k), f.hints, f.style) >= 0
  {
    hide OffsetAt, HeightAt, PartsOf;
  }

  predicate InSpan(f: Frame, x: int)
    reads f
  {
    f.x <= x < f.x + f.width
  }

  ghost predicate SpansMeet(a: Frame, b: Frame)
    reads a, b
  {
    exists x :: InSpan(a, x) && InSpan(b, x)
  }

  /**
   Frames of different columns lie side by side exactly if the one in the left column is at most one gap wider than
   the width asked for it, or one of them has no width at all, or the columns are so much too wide for the window area
   that they change sides.
   */
  lemma ColumnsApart(frames: seq<Frame>, slots: seq<Slot>, geo: Box, gaps: nat, k: nat, masterWidth: int, right: bool,
                     i: nat, j: nat)
    requires i < k <= j < |slots| == |frames|
    requires TiledUpTo(frames, slots, geo, gaps, k, masterWidth, right, |frames|)
    ensures var left, other := if right then frames[j] else frames[i], if right then frames[i] else frames[j];
      var distance := WantedWidth(geo, gaps, masterWidth, !right) + gaps;
      !SpansMeet(left, other) <==>
        left.width == 0 || other.width == 0 || left.width <= distance || other.width <= -distance
  {
    hide Tiled, MasterWidth;
    assert Tiled(frames[i], slots, geo, gaps, k, masterWidth, right, i);
    assert Tiled(frames[j], slots, geo, gaps, k, masterWidth, right, j);
    TiledSpan(frames[i], slots, geo, gaps, k, masterWidth, right, i);
    TiledSpan(frames[j], slots, geo, gaps, k, masterWidth, right, j);
    var left, other := if right then frames[j] else frames[i], if right then frames[i] else frames[j];
    assert other.x == left.x + WantedWidth(geo, gaps, masterWidth, !right) + gaps;
    hide LimitWidth, MasterX, StackX, WantedWidth;
    if left.width > 0 && other.width > 0 && other.x < left.x + left.width && left.x < other.x + other.width {
      var x := Max(left.x, other.x);
      assert InSpan(left, x) && InSpan(other, x);
    }
  }

  /** No view of the left column is more than one gap wider than what is asked for it. */
  ghost predicate LeftFits(frames: seq<Frame>, geo: Box, gaps: int, k: nat, masterWidth: int, right: bool)
    requires k <= |frames|
    reads frames
  {
    forall i :: 0 <= i < |frames| && (i < k) == !right ==>
      frames[i].width <= WantedWidth(geo, gaps, masterWidth, !right) + gaps
  }

  /** After tiling, then, no point lies in two frames. */
  lemma FramesDisjoint(frames: seq<Frame>, slots: seq<Slot>, geo: Box, gaps: nat, k: nat, masterWidth: int, right: bool,
                       i: nat, j: nat, x: int, y: int)
    requires i < j < |slots| == |frames| && k <= |slots|
    requires TiledUpTo(frames, slots, geo, gaps, k, masterWidth, right, |frames|)
    requires LeftFits(frames, geo, gaps, k, masterWidth, right)
    ensures !(Inside(BoxOf(frames[i]), x, y) && Inside(BoxOf(frames[j]), x, y))
  {
    hide TiledUpTo, Stacked, WantedWidth;
    if j < k {
      MasterStacked(frames, slots, geo, gaps, k, masterWidth, right);
      StackedDisjoint(frames, geo, gaps, slots[..k], 0, i, j, x, y);
    } else if k <= i {
      StackStacked(frames, slots, geo, gaps, k, masterWidth, right);
      StackedDisjoint(frames, geo, gaps, slots[k..], k, i, j, x, y);
    } else {
      ColumnsApart(frames, slots, geo, gaps, k, masterWidth, right, i, j);
      SpansApart(frames[i], frames[j], x, y);
    }
  }

  lemma SpansApart(a: Frame, b: Frame, x: int, y: int)
    requires !SpansMeet(a, b)
    ensures !(Inside(BoxOf(a), x, y) && Inside(BoxOf(b), x, y))
  {
    assert !(InSpan(a, x) && InSpan(b, x));
  }

  lemma TiledAt(frames: seq<Frame>, slots: seq<Slot>, geo: Box, gaps: nat, k: nat, masterWidth: int, right: bool, i: nat)
    requires i < |slots| == |frames| && k <= |slots|
    requires TiledUpTo(frames, slots, geo, gaps, k, masterWidth, right, |frames|)
    ensures Tiled(frames[i], slots, geo, gaps, k, masterWidth, right, i)
  {
  }

  /** The tiled frame's upper edge and its height. */
  lemma TiledDepth(f: Frame, slots: seq<Slot>, geo: Box, gaps: nat, k: nat, masterWidth: int, right: bool, i: nat)
    requires k <= |slots| && i < |slots| && Tiled(f, slots, geo, gaps, k, masterWidth, right, i)
    ensures var column, place := if i < k then slots[..k] else slots[k..], if i < k then i else i - k;
      && f.y == geo.y + OffsetAt(column, geo.height, gaps, place)
      && f.height == HeightAt(column, geo.height, gaps, place)
  {
    hide OffsetAt, HeightAt, PartsOf, LimitWidth;
  }

  /** A tiled frame that is not enlarged, in a column without enlarged views, stays one gap inside the window area. */
  lemma FrameInside(frames: seq<Frame>, slots: seq<Slot>, geo: Box, gaps: nat, k: nat, masterWidth: int, right: bool,
                    i: nat)
    requires i < |slots| == |frames| && k <= |slots|
    requires TiledUpTo(frames, slots, geo, gaps, k, masterWidth, right, |frames|)
    requires 0 <= WantedWidth(geo, gaps, masterWidth, i >= k) + gaps
    requires frames[i].width <= WantedWidth(geo, gaps, masterWidth, i < k)
    requires var column := if i < k then slots[..k] else slots[k..];
      Room(geo.height, gaps, |column|) >= 0 && Unenlarged(column, geo.height, gaps)
    ensures var f := frames[i];
      && geo.x + gaps <= f.x && f.x + f.width <= geo.x + geo.width - gaps
      && geo.y + gaps <= f.y && f.y + f.height <= geo.y + geo.height - gaps
  {
    hide TiledUpTo, Unenlarged, Room, LimitWidth, Tiled, OffsetAt, HeightAt, StandsAt;
    TiledAt(frames, slots, geo, gaps, k, masterWidth, right, i);
    TiledSpan(frames[i], slots, geo, gaps, k, masterWidth, right, i);
    TiledDepth(frames[i], slots, geo, gaps, k, masterWidth, right, i);
    if i < k {
      ColumnStaysInside(slots[..k], geo.height, gaps, i);
    } else {
      ColumnStaysInside(slots[k..], geo.height, gaps, i - k);
    }
  }

  lemma Scaled(all: real, factor: real)
    requires all >= 0.0 && 0.05 <= factor <= 0.95
    ensures 0.0 <= all * factor <= all * 0.95
  {
    assert all * 0.95 - all * factor == all * (0.95 - factor);
  }

  /** In a window area of 39 gaps or more, no allowed master factor asks for a column narrower than minus one gap. */
  lemma ColumnsHaveRoom(geo: Box, gaps: nat, n: nat, viewsInMaster: nat, factor: real, master: bool)
    requires 0.05 <= factor <= 0.95 && geo.width >= 39 * gaps
    ensures 0 <= WantedWidth(geo, gaps, MasterWidth(geo.width, gaps, n, viewsInMaster, factor), master) + gaps
  {
    if n > viewsInMaster && viewsInMaster != 0 {
      ShareFits(geo.width, gaps, factor);
    }
  }

  lemma ShareFits(width: int, gaps: nat, factor: real)
    requires 0.05 <= factor <= 0.95 && width >= 39 * gaps
    ensures 0 <= Truncate((width + gaps) as real * factor) <= width - gaps
  {
    var all := (width + gaps) as real;
    var share := all * factor;
    Scaled(all, factor);
    assert share.Floor as real <= share <= (width - gaps) as real;
  }

  // ---- How wide the columns are ---------------------------------------------------------------------------

  /** a is r without its fraction. */
  predicate WithoutFraction(a: int, r: real) {
    if r >= 0.0 then a as real <= r < (a + 1) as real else (a - 1) as real < r <= a as real
  }

  lemma TruncateDropsFraction(r: real)
    ensures WithoutFraction(Truncate(r), r)
  {
  }

  /** The first views are in the master column, which takes its share of the width; a lone column takes all of it. */
  lemma TiledWidth(frames: seq<Frame>, slots: seq<Slot>, geo: Box, gaps: nat, viewsInMaster: nat, factor: real,
                   right: bool, i: nat) returns (asked: int)
    requires i < |slots| == |frames|
    requires var n := |frames|;
      TiledUpTo(frames, slots, geo, gaps, MasterCount(n, viewsInMaster),
                MasterWidth(geo.width, gaps, n, viewsInMaster, factor), right, n)
    ensures frames[i].width == LimitWidth(asked, frames[i].hints, frames[i].style)
    ensures var lone, share := |frames| <= viewsInMaster || viewsInMaster == 0, (geo.width + gaps) as real * factor;
      && (lone ==> asked == geo.width - 2 * gaps)
      && (!lone && i < viewsInMaster ==> WithoutFraction(asked + gaps, share))
      && (!lone && i >= viewsInMaster ==> WithoutFraction(geo.width - 2 * gaps - asked, share))
      && (lone || (i < viewsInMaster) == !right ==> frames[i].x == geo.x + gaps)
      && (lone || (i < viewsInMaster) == right ==> frames[i].x + asked == geo.x + geo.width - gaps)
  {
    hide TiledUpTo, Tiled, LimitWidth, Truncate, WithoutFraction;
    assert Share(geo.width, gaps, factor) == (geo.width + gaps) as real * factor;
    hide Share;
    var n := |frames|;
    var k, masterWidth := MasterCount(n, viewsInMaster), MasterWidth(geo.width, gaps, n, viewsInMaster, factor);
    TiledAt(frames, slots, geo, gaps, k, masterWidth, right, i);
    TiledSpan(frames[i], slots, geo, gaps, k, masterWidth, right, i);
    TruncateDropsFraction(Share(geo.width, gaps, factor));
    asked := WantedWidth(geo, gaps, masterWidth, i < k);
  }

  /** A greater master factor never asks for a narrower master column. */
  lemma ShareGrows(width: int, gaps: nat, n: nat, viewsInMaster: nat, less: real, more: real)
    requires width + gaps >= 0 && less <= more
    ensures MasterWidth(width, gaps, n, viewsInMaster, less) <= MasterWidth(width, gaps, n, viewsInMaster, more)
  {
    hide Truncate, Share;
    ShareProduct(width, gaps, less, more);
    TruncateGrows(Share(width, gaps, less), Share(width, gaps, more));
  }

  lemma ShareProduct(width: int, gaps: nat, less: real, more: real)
    requires width + gaps >= 0 && less <= more
    ensures Share(width, gaps, less) <= Share(width, gaps, more)
  {
    ProductGrows((width + gaps) as real, less, more);
  }

  lemma ProductGrows(all: real, less: real, more: real)
    requires all >= 0.0 && less <= more
    ensures all * less <= all * more
  {
    assert all * more - all * less == all * (more - less);
  }

  lemma TruncateGrows(a: real, b: real)
    requires a <= b
    ensures Truncate(a) <= Truncate(b)
  {
  }
}
