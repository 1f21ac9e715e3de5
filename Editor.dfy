/** The browser placement editor: a list of placement objects, the active
    placement and side, mouse dragging with a 2-pixel click threshold, the
    numeric inline editor and the picture picker. Screen geometry is exact
    over `real`: the image is natW x natH pixels and is shown clientW x clientH
    pixels large. */
module Editor {
  import opened Wrappers
  import opened Text
  import opened Placements

  // ----------------------------------------------------------- display

  /** Natural image size and the size the image element is shown at. */
  datatype Display = Display(natW: int, natH: int, clientW: real, clientH: real)
  {
    predicate Valid() {
      natW > 0 && natH > 0 && clientW > 0.0 && clientH > 0.0
    }
  }

  /** Squared on-screen distance between image points (ax, ay) and (bx, bY):
      `px(a) - px(b)` is `(a - b) * clientW / natW`. */
  function Dist2(d: Display, ax: int, ay: int, bx: int, bY: int): (r: real)
    requires d.Valid()
    ensures r >= 0.0
  {
    var dx := ((ax - bx) as real) * d.clientW / (d.natW as real);
    var dy := ((ay - bY) as real) * d.clientH / (d.natH as real);
    dx * dx + dy * dy
  }

  /** A placement is hit when it is less than 12 screen pixels away. */
  const HitRadius2: real := 144.0

  /** Squared distance from placement k of vs to the point (x, y). */
  function DistTo(d: Display, vs: seq<PlacementRecord>, k: int, x: int, y: int): real
    requires d.Valid() && 0 <= k < |vs|
  {
    Dist2(d, vs[k].x, vs[k].y, x, y)
  }

  /** What `nearestPlacement` finds, as an index into the list: a scan that
      keeps the best so far and replaces it only on a strictly smaller
      distance, starting from the hit radius. */
  function Nearest(d: Display, vs: seq<PlacementRecord>, x: int, y: int): (r: Option<nat>)
    requires d.Valid()
    ensures r.Some? ==> r.value < |vs|
  {
    if vs == [] then None
    else
      var n := |vs| - 1;
      var prev := Nearest(d, vs[..n], x, y);
      var dn := DistTo(d, vs, n, x, y);
      match prev
      case None => if dn < HitRadius2 then Some(n) else None
      case Some(k) => if dn < DistTo(d, vs[..n], k, x, y) then Some(n) else prev
  }

  /** Placement k is within the hit radius, no placement is closer, and every
      placement before it is strictly farther away. */
  predicate IsNearest(d: Display, vs: seq<PlacementRecord>, x: int, y: int, k: int)
    requires d.Valid()
  {
    && 0 <= k < |vs|
    && DistTo(d, vs, k, x, y) < HitRadius2
    && (forall j :: 0 <= j < |vs| ==> DistTo(d, vs, k, x, y) <= DistTo(d, vs, j, x, y))
    && (forall j :: 0 <= j < k ==> DistTo(d, vs, k, x, y) < DistTo(d, vs, j, x, y))
  }

  /** The scan finds nothing exactly when every placement is at least 12
      pixels away, and otherwise finds exactly the earliest of the closest
      placements. */
  lemma {:induction false} NearestSpec(d: Display, vs: seq<PlacementRecord>, x: int, y: int)
    requires d.Valid()
    ensures Nearest(d, vs, x, y) == None <==>
      forall j :: 0 <= j < |vs| ==> DistTo(d, vs, j, x, y) >= HitRadius2
    ensures forall k :: Nearest(d, vs, x, y) == Some(k) <==> IsNearest(d, vs, x, y, k)
  {
    if vs != [] {
      var n := |vs| - 1;
      var init := vs[..n];
      NearestSpec(d, init, x, y);
      forall j | 0 <= j < n ensures DistTo(d, init, j, x, y) == DistTo(d, vs, j, x, y) {
        assert init[j] == vs[j];
      }
      var r := Nearest(d, vs, x, y);
      forall k ensures r == Some(k) <==> IsNearest(d, vs, x, y, k) {
        if r == Some(k) {
          assert IsNearest(d, vs, x, y, k);
        }
        if IsNearest(d, vs, x, y, k) {
          if k < n {
            assert IsNearest(d, init, x, y, k);
          } else {
            match Nearest(d, init, x, y)
            case None =>
            case Some(i) =>
              assert IsNearest(d, init, x, y, i);
          }
        }
      }
    }
  }

  /** Adding a placement exactly at a point nothing was near makes it the
      one found there. */
  lemma EnsureThenFind(d: Display, vs: seq<PlacementRecord>, x: int, y: int)
    requires d.Valid()
    requires Nearest(d, vs, x, y) == None
    ensures Nearest(d, vs + [Unassigned(x, y)], x, y) == Some(|vs|)
  {
    assert (vs + [Unassigned(x, y)])[..|vs|] == vs;
  }

  // -------------------------------------------------------------- drag

  /** `Math.round(v)`: the integer nearest v, halves rounded up. */
  function RoundHalfUp(v: real): (r: int)
    ensures (r as real) - 0.5 <= v < (r as real) + 0.5
  {
    (v + 0.5).Floor
  }

  /** Where the pointer's screen displacement `delta` since the mouse went
      down takes a coordinate that started at `start`, in image pixels:
      `pStartX + dx * natW / img.clientWidth`. */
  function DragTarget(start: int, delta: real, natSize: int, clientSize: real): real
    requires clientSize > 0.0
  {
    (start as real) + delta * (natSize as real) / clientSize
  }

  /** `Math.max(0, Math.min(natSize, v))`. */
  function ClampTo(v: int, natSize: int): (c: int)
    requires natSize >= 0
    ensures 0 <= c <= natSize
    ensures 0 <= v <= natSize ==> c == v
  {
    if natSize < v then natSize else if v < 0 then 0 else v
  }

  /** The coordinate a drag gives a placement: the drag target rounded to a
      pixel and clamped to [0, natSize]. */
  function DragCoord(start: int, delta: real, natSize: int, clientSize: real): (c: int)
    requires natSize > 0 && clientSize > 0.0
    ensures 0 <= c <= natSize
    ensures var v := DragTarget(start, delta, natSize, clientSize);
      0 <= RoundHalfUp(v) <= natSize ==> (c as real) - 0.5 <= v < (c as real) + 0.5
  {
    ClampTo(RoundHalfUp(DragTarget(start, delta, natSize, clientSize)), natSize)
  }

  /** A pointer back at its starting point puts the placement back where it
      started. */
  lemma DragCoordZero(start: int, natSize: int, clientSize: real)
    requires natSize > 0 && clientSize > 0.0 && 0 <= start <= natSize
    ensures DragCoord(start, 0.0, natSize, clientSize) == start
  {
    assert DragTarget(start, 0.0, natSize, clientSize) == start as real;
    assert RoundHalfUp(start as real) == start;
  }

  lemma MulDivCancel(a: real, b: real)
    requires b != 0.0
    ensures a * b / b == a
  {
  }

  /** At one screen pixel per image pixel a whole-pixel drag moves the
      placement by exactly that many pixels, up to the clamp. */
  lemma DragCoordUnitScale(start: int, delta: int, natSize: int)
    requires natSize > 0
    ensures DragCoord(start, delta as real, natSize, natSize as real)
      == if start + delta < 0 then 0 else if start + delta > natSize then natSize else start + delta
  {
    var dr, nr := delta as real, natSize as real;
    assert nr > 0.0;
    assert dr * nr / nr == dr by { MulDivCancel(dr, nr); }
    assert DragTarget(start, dr, natSize, nr) == (start + delta) as real;
    assert RoundHalfUp((start + delta) as real) == start + delta;
  }

  /** The clamp admits natSize itself, one past the last pixel. */
  lemma DragReachesFarEdge(natSize: int, clientSize: real)
    requires natSize > 0 && clientSize > 0.0
    ensures DragCoord(0, clientSize, natSize, clientSize) == natSize
  {
    var nr := natSize as real;
    assert clientSize * nr / clientSize == nr by { MulDivCancel(nr, clientSize); }
    assert DragTarget(0, clientSize, natSize, clientSize) == nr;
    assert RoundHalfUp(nr) == natSize;
  }

  /** The pointer has moved far enough for the gesture to count as a drag. */
  predicate BeyondThreshold(dx: real, dy: real) {
    dx > 2.0 || dx < -2.0 || dy > 2.0 || dy < -2.0
  }

  // ------------------------------------------------------- inline editor

  /** An input box's initial text: `p.s1_num || ''`. */
  function Prefill(f: Field): (s: string)
    ensures !Truthy(f) ==> s == ""
    ensures f.Num? && f.n != 0 ==> s == IntToDecimal(f.n)
  {
    if Truthy(f) then FieldText(f) else ""
  }

  /** What Enter stores for an input box's text: `parseInt(v) || null`. */
  function NumOrNull(s: string): (f: Field)
    ensures f.Null? || (f.Num? && f.n != 0)
    ensures f.Num? <==> (JsParseInt(s).Some? && JsParseInt(s).value != 0)
  {
    match JsParseInt(s)
    case None => Null
    case Some(v) => if v == 0 then Null else Num(v)
  }

  /** Empty input and input without any digit store null. */
  lemma NumOrNullNoDigits(s: string)
    requires forall k :: 0 <= k < |s| ==> !IsDigit(s[k])
    ensures NumOrNull(s) == Null
  {
    JsParseIntNoDigits(s);
  }

  /** Zero stores null too. */
  lemma NumOrNullZero()
    ensures NumOrNull("0") == Null
  {
    JsParseIntOfDecimal(0);
    assert IntToDecimal(0) == "0";
  }

  /** Any other decimal integer is stored as that number; nothing limits it
      to the artworks that exist. */
  lemma NumOrNullOfDecimal(n: int)
    requires n != 0
    ensures NumOrNull(IntToDecimal(n)) == Num(n)
  {
    JsParseIntOfDecimal(n);
  }

  /** Opening the inline editor and pressing Enter without typing keeps a
      number slot as it was, except that a stored 0 becomes null. */
  lemma CommitOfPrefill(f: Field)
    requires f.Null? || f.Num?
    ensures NumOrNull(Prefill(f)) == if Truthy(f) then f else Null
  {
    NumOrNullNoDigits("");
    if Truthy(f) {
      NumOrNullOfDecimal(f.n);
    }
  }

  // ------------------------------------------------------------ objects

  /** One placement record as a JavaScript object the editor mutates in place. */
  class Placement {
    var x: int
    var y: int
    var s1Num: Field
    var s2Num: Field
    var s1Icon: Field
    var s2Icon: Field

    constructor (r: PlacementRecord)
      ensures View() == r
    {
      x, y := r.x, r.y;
      s1Num, s2Num, s1Icon, s2Icon := r.s1Num, r.s2Num, r.s1Icon, r.s2Icon;
    }

    function View(): PlacementRecord
      reads this
    {
      PlacementRecord(x, y, s1Num, s2Num, s1Icon, s2Icon)
    }
  }

  /** The records a list of placement objects currently holds. */
  function Views(ps: seq<Placement>): (vs: seq<PlacementRecord>)
    reads set p | p in ps
    ensures |vs| == |ps| && forall k :: 0 <= k < |ps| ==> vs[k] == ps[k].View()
  {
    if ps == [] then [] else Views(ps[..|ps| - 1]) + [ps[|ps| - 1].View()]
  }

  class Editor {
    const mode: Mode
    const useImages: bool
    const disp: Display
    const choices: seq<Choice>

    var placements: seq<Placement>
    /** The selected placement, null before the first selection. */
    var activeP: Placement?
    var activeSide: int
    var isDragging: bool
    var dragMoved: bool
    var dragStartX: real
    var dragStartY: real
    var pStartX: int
    var pStartY: int
    /** The placement the pending mouse-move listener moves. */
    var dragTarget: Placement?
    /** The numeric overlay, the placement its Enter handler writes, and the
        text of its one (single-way) or two (two-way) input boxes. */
    var overlayOpen: bool
    var editTarget: Placement?
    var input1: string
    var input2: string

    predicate Valid()
      reads this
    {
      && disp.Valid()
      && (activeSide == 1 || (activeSide == 2 && mode == Two))
      && (activeP != null ==> activeP in placements)
      && (isDragging <==> dragTarget != null)
      && (dragTarget != null ==> dragTarget in placements)
      && (overlayOpen ==> editTarget != null && editTarget in placements && !useImages)
      && (forall i, j :: 0 <= i < j < |placements| ==> placements[i] != placements[j])
    }

    /** The page starts from the placements it was given, nothing selected
        and no drag or edit in progress. */
    constructor (mode: Mode, useImages: bool, disp: Display, choices: seq<Choice>,
                 init: seq<PlacementRecord>)
      requires disp.Valid()
      ensures Valid() && fresh(placements) && Views(placements) == init
      ensures this.mode == mode && this.useImages == useImages
      ensures this.disp == disp && this.choices == choices
      ensures activeP == null && activeSide == 1 && !isDragging && !dragMoved && !overlayOpen
    {
      var ps: seq<Placement> := [];
      for i := 0 to |init|
        invariant |ps| == i && fresh(ps)
        invariant forall k :: 0 <= k < i ==> ps[k].View() == init[k]
        invariant forall a, b :: 0 <= a < b < i ==> ps[a] != ps[b]
      {
        var p := new Placement(init[i]);
        ps := ps + [p];
      }
      this.mode, this.useImages, this.disp, this.choices := mode, useImages, disp, choices;
      placements := ps;
      activeP, activeSide := null, 1;
      isDragging, dragMoved := false, false;
      dragStartX, dragStartY, pStartX, pStartY := 0.0, 0.0, 0, 0;
      dragTarget := null;
      overlayOpen, editTarget, input1, input2 := false, null, "", "";
    }

    /** `nearestPlacement(x, y)`: the linear scan, proved to find the
        placement `Nearest` names. */
    method NearestPlacement(x: int, y: int) returns (best: Placement?)
      requires Valid()
      ensures var r := Nearest(disp, Views(placements), x, y);
        && (best == null <==> r == None)
        && (r.Some? ==> best == placements[r.value])
    {
      best := null;
      var bestD := HitRadius2;
      ghost var vs := Views(placements);
      ghost var bk: Option<nat> := None;
      for i := 0 to |placements|
        invariant bk == Nearest(disp, vs[..i], x, y)
        invariant bk == None ==> best == null && bestD == HitRadius2
        invariant bk.Some? ==> bk.value < i && best == placements[bk.value]
                               && bestD == DistTo(disp, vs, bk.value, x, y)
      {
        var p := placements[i];
        var dd := Dist2(disp, p.x, p.y, x, y);
        assert vs[..i + 1][..i] == vs[..i];
        assert dd == DistTo(disp, vs[..i + 1], i, x, y);
        if bk.Some? {
          assert DistTo(disp, vs[..i], bk.value, x, y) == bestD;
        }
        if dd < bestD {
          best := p;
          bestD := dd;
          bk := Some(i);
        }
      }
      assert vs[..|placements|] == vs;
    }

    /** `ensurePlacement(x, y)`: the placement found near the point, or a new
        unassigned one appended at the end of the list. */
    method EnsurePlacement(x: int, y: int) returns (p: Placement)
      requires Valid()
      modifies this`placements
      ensures Valid()
      ensures match old(Nearest(disp, Views(placements), x, y))
        case Some(k) => placements == old(placements) && p == placements[k]
        case None => fresh(p) && placements == old(placements) + [p] && p.View() == Unassigned(x, y)
    {
      var q := NearestPlacement(x, y);
      if q == null {
        p := new Placement(Unassigned(x, y));
        placements := placements + [p];
      } else {
        p := q;
      }
    }

    /** `selectPlacement(p)`: p becomes active and side 1 is selected. */
    method SelectPlacement(p: Placement)
      requires Valid() && p in placements
      modifies this`activeP, this`activeSide
      ensures Valid() && activeP == p && activeSide == 1
    {
      activeP := p;
      activeSide := 1;
    }

    /** `selectSide(side)`; side 2 exists only on a two-way road. */
    method SelectSide(side: int)
      requires Valid() && (side == 1 || (side == 2 && mode == Two))
      modifies this`activeSide
      ensures Valid() && activeSide == side
    {
      activeSide := side;
    }

    /** A click on the image at image pixel (x, y): the placement there, new
        or existing, becomes active with side 1 selected. */
    method ImageClick(x: int, y: int)
      requires Valid()
      modifies this`placements, this`activeP, this`activeSide
      ensures Valid() && activeP != null && activeSide == 1
      ensures match old(Nearest(disp, Views(placements), x, y))
        case Some(k) => placements == old(placements) && activeP == placements[k]
        case None => placements == old(placements) + [activeP] && activeP.View() == Unassigned(x, y)
    {
      var p := EnsurePlacement(x, y);
      SelectPlacement(p);
    }

    /** Mouse button pressed on the marker of p at screen point (cx, cy):
        a drag of p starts and p is selected. */
    method MouseDown(p: Placement, cx: real, cy: real)
      requires Valid() && p in placements
      modifies this`isDragging, this`dragMoved, this`dragStartX, this`dragStartY,
               this`pStartX, this`pStartY, this`dragTarget, this`activeP, this`activeSide
      ensures Valid() && isDragging && dragTarget == p && !dragMoved
      ensures dragStartX == cx && dragStartY == cy && pStartX == p.x && pStartY == p.y
      ensures activeP == p && activeSide == 1
    {
      isDragging, dragMoved := true, false;
      dragStartX, dragStartY := cx, cy;
      pStartX, pStartY := p.x, p.y;
      dragTarget := p;
      SelectPlacement(p);
    }

    /** The pointer moved to screen point (cx, cy). During a drag the dragged
        placement goes to the start position moved by the whole displacement
        since the button went down, so it depends only on the latest pointer
        position; every other placement stays where it is. */
    method MouseMove(cx: real, cy: real)
      requires Valid()
      modifies this`dragMoved, dragTarget
      ensures Valid()
      ensures !old(isDragging) ==> dragMoved == old(dragMoved)
      ensures old(isDragging) ==>
        && dragMoved == (old(dragMoved) || BeyondThreshold(cx - dragStartX, cy - dragStartY))
        && dragTarget.x == DragCoord(pStartX, cx - dragStartX, disp.natW, disp.clientW)
        && dragTarget.y == DragCoord(pStartY, cy - dragStartY, disp.natH, disp.clientH)
        && 0 <= dragTarget.x <= disp.natW && 0 <= dragTarget.y <= disp.natH
        && dragTarget.s1Num == old(dragTarget.s1Num) && dragTarget.s2Num == old(dragTarget.s2Num)
        && dragTarget.s1Icon == old(dragTarget.s1Icon) && dragTarget.s2Icon == old(dragTarget.s2Icon)
    {
      if isDragging {
        var dx := cx - dragStartX;
        var dy := cy - dragStartY;
        if BeyondThreshold(dx, dy) {
          dragMoved := true;
        }
        var p := dragTarget;
        p.x := DragCoord(pStartX, dx, disp.natW, disp.clientW);
        p.y := DragCoord(pStartY, dy, disp.natH, disp.clientH);
      }
    }

    /** Mouse button released: the drag ends, `dragMoved` keeps its value. */
    method MouseUp()
      requires Valid()
      modifies this`isDragging, this`dragTarget
      ensures Valid() && !isDragging && dragTarget == null
    {
      isDragging := false;
      dragTarget := null;
    }

    /** `openInlineEditor(p, side)`: numbers mode only; the overlay shows one
        input box (two on a two-way road) filled from p's number slots. */
    method OpenInlineEditor(p: Placement, side: int)
      requires Valid() && p in placements
      modifies this`overlayOpen, this`editTarget, this`input1, this`input2
      ensures Valid()
      ensures useImages ==> overlayOpen == old(overlayOpen) && editTarget == old(editTarget)
                            && input1 == old(input1) && input2 == old(input2)
      ensures !useImages ==> overlayOpen && editTarget == p && input1 == Prefill(p.s1Num)
                             && input2 == (if mode == Two then Prefill(p.s2Num) else "")
    {
      if !useImages {
        overlayOpen := true;
        editTarget := p;
        input1 := Prefill(p.s1Num);
        input2 := if mode == Two then Prefill(p.s2Num) else "";
      }
    }

    /** A click on side `side` of p's marker. Right after a drag it does
        nothing; otherwise p becomes active with that side selected and, in
        numbers mode, the inline editor opens on p. */
    method HalfClick(p: Placement, side: int)
      requires Valid() && p in placements && (side == 1 || (side == 2 && mode == Two))
      modifies this`activeP, this`activeSide, this`overlayOpen, this`editTarget,
               this`input1, this`input2
      ensures Valid()
      ensures old(dragMoved) ==> activeP == old(activeP) && activeSide == old(activeSide)
                                 && overlayOpen == old(overlayOpen) && editTarget == old(editTarget)
                                 && input1 == old(input1) && input2 == old(input2)
      ensures !old(dragMoved) ==> activeP == p && activeSide == side
      ensures !old(dragMoved) && !useImages ==> overlayOpen && editTarget == p
                                                && input1 == Prefill(p.s1Num)
                                                && input2 == (if mode == Two then Prefill(p.s2Num) else "")
      ensures !old(dragMoved) && useImages ==> overlayOpen == old(overlayOpen)
                                               && editTarget == old(editTarget)
                                               && input1 == old(input1) && input2 == old(input2)
    {
      if !dragMoved {
        SelectPlacement(p);
        SelectSide(side);
        OpenInlineEditor(p, side);
      }
    }

    /** The user sets the text of input box k of the open overlay. */
    method EditInput(k: int, text: string)
      requires Valid() && overlayOpen && (k == 1 || (k == 2 && mode == Two))
      modifies this`input1, this`input2
      ensures Valid()
      ensures k == 1 ==> input1 == text && input2 == old(input2)
      ensures k == 2 ==> input2 == text && input1 == old(input1)
    {
      if k == 1 { input1 := text; } else { input2 := text; }
    }

    /** Enter in an input box: `s1_num` (and on a two-way road `s2_num` too,
        whichever box had the focus) of the edited placement becomes
        `parseInt(text) || null`, and the overlay closes. Nothing else changes. */
    method PressEnter()
      requires Valid() && overlayOpen
      modifies this`overlayOpen, editTarget
      ensures Valid() && !overlayOpen
      ensures editTarget.s1Num == NumOrNull(input1)
      ensures editTarget.s2Num == (if mode == Two then NumOrNull(input2) else old(editTarget.s2Num))
      ensures editTarget.x == old(editTarget.x) && editTarget.y == old(editTarget.y)
      ensures editTarget.s1Icon == old(editTarget.s1Icon) && editTarget.s2Icon == old(editTarget.s2Icon)
    {
      var p := editTarget;
      p.s1Num := NumOrNull(input1);
      if mode == Two {
        p.s2Num := NumOrNull(input2);
      }
      overlayOpen := false;
    }

    /** A click on catalogue entry c: with no active placement nothing
        happens; otherwise the active side's icon slot of the active placement
        becomes c's id and nothing else changes. */
    method PickChoice(c: Choice)
      requires Valid() && useImages && c in choices
      modifies activeP
      ensures Valid()
      ensures activeP != null && activeSide == 1 ==>
        && activeP.s1Icon == Num(c.id) && activeP.s2Icon == old(activeP.s2Icon)
        && activeP.x == old(activeP.x) && activeP.y == old(activeP.y)
        && activeP.s1Num == old(activeP.s1Num) && activeP.s2Num == old(activeP.s2Num)
      ensures activeP != null && activeSide == 2 ==>
        && activeP.s2Icon == Num(c.id) && activeP.s1Icon == old(activeP.s1Icon)
        && activeP.x == old(activeP.x) && activeP.y == old(activeP.y)
        && activeP.s1Num == old(activeP.s1Num) && activeP.s2Num == old(activeP.s2Num)
    {
      if activeP != null {
        if activeSide == 1 {
          activeP.s1Icon := Num(c.id);
        } else {
          activeP.s2Icon := Num(c.id);
        }
      }
    }
  }
}
