/** Integer geometry of the rendered output: the size of the marker boxes on
    the final image (JavaScript `boxW`/`half`/`drawBox` and the Python
    variant), and the clipping of an icon pasted centred onto an image
    (`_overlay_icon_center`). The factor 0.015 is taken as the exact ratio
    3/200. */
module Layout {
  import opened Wrappers
  import opened Placements

  // ----------------------------------------------------------- rounding

  /** Python `int(a / b)` for b > 0: truncation toward zero. */
  function TruncDiv(a: int, b: int): int
    requires b > 0
  {
    if a >= 0 then a / b else -((-a) / b)
  }

  // ------------------------------------------------------- box sizes

  const MinBox: int := 16

  /** JavaScript `Math.max(16, Math.round(Math.min(natW, natH) * 0.015))`. */
  function JsBoxSize(natW: int, natH: int): (w: int)
    ensures w >= MinBox
  {
    var m := if natW < natH then natW else natH;
    var r := (3 * m + 100) / 200;  // Math.round(3m / 200) = floor(3m / 200 + 1/2)
    if r > MinBox then r else MinBox
  }

  /** Python `max(16, int(min(h, w) * 0.015))`. */
  function PyBoxSize(natW: int, natH: int): (w: int)
    ensures w >= MinBox
  {
    var m := if natW < natH then natW else natH;
    var r := TruncDiv(3 * m, 200);
    if r > MinBox then r else MinBox
  }

  /** The two renderers differ by at most one pixel of box size. */
  lemma BoxSizesAgreeWithinOne(natW: int, natH: int)
    requires natW >= 0 && natH >= 0
    ensures PyBoxSize(natW, natH) <= JsBoxSize(natW, natH) <= PyBoxSize(natW, natH) + 1
  {
    var m := if natW < natH then natW else natH;
    var a := (3 * m + 100) / 200;
    var b := TruncDiv(3 * m, 200);
    assert b <= a <= b + 1;
  }

  /** They do differ: a 1170-pixel short side gives 17.55, which rounds to 18
      and truncates to 17. */
  lemma BoxSizesDiffer()
    ensures JsBoxSize(1170, 2000) == 18 && PyBoxSize(1170, 2000) == 17
  {
  }

  /** `Math.round(w / 2)`, the distance drawBox steps back from the centre. */
  function HalfUp(w: int): int {
    (w + 1) / 2
  }

  // ------------------------------------------------------------- boxes

  datatype Color = Blue | Red

  /** A stroked rectangle [left, left + w) x [top, top + h) with its text. */
  datatype Box = Box(left: int, top: int, w: int, h: int, color: Color, text: string)

  /** `drawBox(ctx, cx, cy, w, h, color, text)`. */
  function DrawBox(cx: int, cy: int, w: int, h: int, color: Color, text: string): (b: Box)
    requires w >= 0 && h >= 0
    ensures b.w == w && b.h == h
    ensures 2 * b.left + b.w + b.w % 2 == 2 * cx
    ensures 2 * b.top + b.h + b.h % 2 == 2 * cy
  {
    Box(cx - HalfUp(w), cy - HalfUp(h), w, h, color, text)
  }

  /** The boxes the final image draws for one placement. */
  function PlacementBoxes(mode: Mode, w: int, r: PlacementRecord): (bs: seq<Box>)
    requires w >= 0
    ensures |bs| == (if mode == Single then 1 else 2)
  {
    if mode == Single then
      [DrawBox(r.x, r.y, w, w, Blue, SideLabel(r, 1))]
    else
      var half := w / 2;
      [DrawBox(r.x - half, r.y, w, w, Blue, SideLabel(r, 1)),
       DrawBox(r.x + half, r.y, w, w, Red, SideLabel(r, 2))]
  }

  /** All boxes of the final image, placement by placement in list order. */
  function FinalBoxes(mode: Mode, natW: int, natH: int, vs: seq<PlacementRecord>): (bs: seq<Box>)
    ensures |bs| == (if mode == Single then |vs| else 2 * |vs|)
  {
    if vs == [] then []
    else FinalBoxes(mode, natW, natH, vs[..|vs| - 1])
         + PlacementBoxes(mode, JsBoxSize(natW, natH), vs[|vs| - 1])
  }

  function BoxesPer(mode: Mode): nat {
    if mode == Single then 1 else 2
  }

  /** Placement i owns box i in single-way mode and boxes 2i (side 1, blue)
      and 2i + 1 (side 2, red) in two-way mode. */
  lemma FinalBoxesLayout(mode: Mode, natW: int, natH: int, vs: seq<PlacementRecord>)
    ensures var bs := FinalBoxes(mode, natW, natH, vs);
      mode == Single ==>
        && |bs| == |vs|
        && forall i :: 0 <= i < |vs| ==> bs[i] == PlacementBoxes(mode, JsBoxSize(natW, natH), vs[i])[0]
    ensures var bs := FinalBoxes(mode, natW, natH, vs);
      mode == Two ==>
        && |bs| == 2 * |vs|
        && forall i :: 0 <= i < |vs| ==>
             bs[2 * i] == PlacementBoxes(mode, JsBoxSize(natW, natH), vs[i])[0]
             && bs[2 * i + 1] == PlacementBoxes(mode, JsBoxSize(natW, natH), vs[i])[1]
  {
    if mode == Single {
      SingleBoxesLayout(natW, natH, vs);
    } else {
      TwoBoxesLayout(natW, natH, vs);
    }
  }

  lemma {:induction false} SingleBoxesLayout(natW: int, natH: int, vs: seq<PlacementRecord>)
    ensures forall i :: 0 <= i < |vs| ==>
      FinalBoxes(Single, natW, natH, vs)[i] == PlacementBoxes(Single, JsBoxSize(natW, natH), vs[i])[0]
  {
    if vs != [] {
      var n := |vs| - 1;
      var init := vs[..n];
      SingleBoxesLayout(natW, natH, init);
      var front := FinalBoxes(Single, natW, natH, init);
      var all := FinalBoxes(Single, natW, natH, vs);
      assert all == front + PlacementBoxes(Single, JsBoxSize(natW, natH), vs[n]);
      forall i | 0 <= i < n ensures all[i] == front[i] && init[i] == vs[i] { }
    }
  }

  lemma {:induction false} TwoBoxesLayout(natW: int, natH: int, vs: seq<PlacementRecord>)
    ensures forall i :: 0 <= i < |vs| ==>
      && FinalBoxes(Two, natW, natH, vs)[2 * i] == PlacementBoxes(Two, JsBoxSize(natW, natH), vs[i])[0]
      && FinalBoxes(Two, natW, natH, vs)[2 * i + 1] == PlacementBoxes(Two, JsBoxSize(natW, natH), vs[i])[1]
  {
    if vs != [] {
      var n := |vs| - 1;
      var init := vs[..n];
      TwoBoxesLayout(natW, natH, init);
      var front := FinalBoxes(Two, natW, natH, init);
      var last := PlacementBoxes(Two, JsBoxSize(natW, natH), vs[n]);
      var all := FinalBoxes(Two, natW, natH, vs);
      assert all == front + last && |front| == 2 * n;
      forall i | 0 <= i < |vs|
        ensures all[2 * i] == PlacementBoxes(Two, JsBoxSize(natW, natH), vs[i])[0]
        ensures all[2 * i + 1] == PlacementBoxes(Two, JsBoxSize(natW, natH), vs[i])[1]
      {
        if i < n {
          assert all[2 * i] == front[2 * i] && all[2 * i + 1] == front[2 * i + 1];
          assert init[i] == vs[i];
        } else {
          assert all[2 * i] == last[0] && all[2 * i + 1] == last[1];
        }
      }
    }
  }

  /** In two-way mode the blue box ends exactly where the red box starts when
      the box width is even; with an odd width they overlap by one pixel. */
  lemma TwoWayBoxesTouch(w: int, r: PlacementRecord)
    requires w >= 0
    ensures var bs := PlacementBoxes(Two, w, r);
      && bs[0].color == Blue && bs[1].color == Red
      && bs[0].top == bs[1].top
      && (bs[0].left + bs[0].w == bs[1].left <==> w % 2 == 0)
      && (w % 2 == 1 ==> bs[0].left + bs[0].w == bs[1].left + 1)
  {
  }

  /** With an even width the pair of boxes spans [x - w, x + w): it is centred
      on the placement. */
  lemma TwoWayPairCentred(w: int, r: PlacementRecord)
    requires w >= 0 && w % 2 == 0
    ensures var bs := PlacementBoxes(Two, w, r);
      bs[0].left == r.x - w && bs[1].left + bs[1].w == r.x + w
  {
  }

  // ------------------------------------------------------------ Python boxes

  /** What the desktop renderer hands to its box drawer: a centre, a size, a
      colour and a label (the drawer itself is not part of this model). */
  datatype Marker = Marker(cx: int, cy: int, size: int, color: Color, text: string)

  function PyPlacementMarkers(mode: Mode, w: int, r: PlacementRecord): (ms: seq<Marker>)
    ensures |ms| == BoxesPer(mode)
  {
    if mode == Single then
      [Marker(r.x, r.y, w, Blue, SideLabel(r, 1))]
    else
      var half := w / 2;
      [Marker(r.x - half, r.y, w, Blue, SideLabel(r, 1)),
       Marker(r.x + half, r.y, w, Red, SideLabel(r, 2))]
  }

  function PyFinalMarkers(mode: Mode, natW: int, natH: int, vs: seq<PlacementRecord>): (ms: seq<Marker>)
    ensures |ms| == (if mode == Single then |vs| else 2 * |vs|)
  {
    if vs == [] then []
    else PyFinalMarkers(mode, natW, natH, vs[..|vs| - 1])
         + PyPlacementMarkers(mode, PyBoxSize(natW, natH), vs[|vs| - 1])
  }

  /** Both renderers draw the same boxes at the same centres with the same
      labels; only the size may differ, by at most one pixel. */
  lemma {:induction false} RenderersAgree(mode: Mode, natW: int, natH: int, vs: seq<PlacementRecord>)
    requires natW >= 0 && natH >= 0
    ensures |PyFinalMarkers(mode, natW, natH, vs)| == |FinalBoxes(mode, natW, natH, vs)|
    ensures forall j :: 0 <= j < |FinalBoxes(mode, natW, natH, vs)| ==>
      MarkerMatches(mode, FinalBoxes(mode, natW, natH, vs)[j], PyFinalMarkers(mode, natW, natH, vs)[j])
  {
    BoxSizesAgreeWithinOne(natW, natH);
    if vs != [] {
      var n := |vs| - 1;
      RenderersAgree(mode, natW, natH, vs[..n]);
      var bf := FinalBoxes(mode, natW, natH, vs[..n]);
      var mf := PyFinalMarkers(mode, natW, natH, vs[..n]);
      var bl := PlacementBoxes(mode, JsBoxSize(natW, natH), vs[n]);
      var ml := PyPlacementMarkers(mode, PyBoxSize(natW, natH), vs[n]);
      assert FinalBoxes(mode, natW, natH, vs) == bf + bl;
      assert PyFinalMarkers(mode, natW, natH, vs) == mf + ml;
      forall j | 0 <= j < |bl| ensures MarkerMatches(mode, bl[j], ml[j]) { }
    }
  }

  /** A JavaScript box and the Python marker at the same position of the
      output agree on colour and label, the Python size is at most one pixel
      smaller, and the box centre is within one pixel of the marker centre,
      pulled toward the placement (the blue box sits left of it, the red box
      right). */
  predicate MarkerMatches(mode: Mode, b: Box, m: Marker) {
    && b.color == m.color && b.text == m.text && b.w == b.h
    && m.size <= b.w <= m.size + 1
    && (b.color == Blue ==> m.cx - 1 <= b.left + HalfUp(b.w) <= m.cx)
    && (b.color == Red ==> m.cx <= b.left + HalfUp(b.w) <= m.cx + 1)
    && (mode == Single ==> b.left + HalfUp(b.w) == m.cx)
    && b.top + HalfUp(b.h) == m.cy
  }

  // ------------------------------------------------------------- icon clip

  /** The part of the base image an icon covers and the matching part of the
      icon: base rows/columns [by1, by2) x [bx1, bx2), icon [iy1, iy2) x [ix1, ix2). */
  datatype Clip = Clip(bx1: int, by1: int, bx2: int, by2: int,
                       ix1: int, iy1: int, ix2: int, iy2: int)

  /** `_overlay_icon_center` index arithmetic for a base image W x H and an
      icon iw x ih centred at (cx + ox, cy + oy). None: the icon misses the
      image and nothing is drawn. */
  function ClipIcon(W: int, H: int, iw: int, ih: int, cx: int, cy: int, ox: int, oy: int): (r: Option<Clip>)
    ensures r.Some? ==> var c := r.value;
      && 0 <= c.bx1 && c.bx2 <= W && 0 <= c.by1 && c.by2 <= H
      && 0 <= c.ix1 && 0 <= c.iy1
      && c.ix2 - c.ix1 == c.bx2 - c.bx1 && c.iy2 - c.iy1 == c.by2 - c.by1
  {
    var x1 := TruncDiv(2 * (cx + ox) - iw, 2);
    var y1 := TruncDiv(2 * (cy + oy) - ih, 2);
    var x2 := x1 + iw;
    var y2 := y1 + ih;
    if x1 >= W || y1 >= H || x2 <= 0 || y2 <= 0 then None
    else
      var bx1 := if x1 > 0 then x1 else 0;
      var by1 := if y1 > 0 then y1 else 0;
      var bx2 := if x2 < W then x2 else W;
      var by2 := if y2 < H then y2 else H;
      var ix1 := bx1 - x1;
      var iy1 := by1 - y1;
      Some(Clip(bx1, by1, bx2, by2, ix1, iy1, ix1 + (bx2 - bx1), iy1 + (by2 - by1)))
  }

  /** The icon's left edge: int(cx - iw / 2), within half a pixel of centred. */
  function IconLeft(c: int, iw: int): int {
    TruncDiv(2 * c - iw, 2)
  }

  /** p lies in the half-open span [lo, hi). */
  predicate InSpan(lo: int, hi: int, p: int) { lo <= p < hi }

  /** Clipping is exact: the drawn region of the base image is the
      intersection of the image with the icon's rectangle, it is empty exactly
      when nothing is drawn, and the icon crop has the same size and lies
      inside the icon, offset by the icon's position. */
  lemma ClipIconCorrect(W: int, H: int, iw: int, ih: int, cx: int, cy: int, ox: int, oy: int)
    requires W >= 1 && H >= 1 && iw >= 1 && ih >= 1
    ensures var x1 := IconLeft(cx + ox, iw);
            var y1 := IconLeft(cy + oy, ih);
            match ClipIcon(W, H, iw, ih, cx, cy, ox, oy)
            case None =>
              || (forall px :: InSpan(0, W, px) ==> !InSpan(x1, x1 + iw, px))
              || (forall py :: InSpan(0, H, py) ==> !InSpan(y1, y1 + ih, py))
            case Some(c) =>
              && 0 <= c.bx1 < c.bx2 <= W && 0 <= c.by1 < c.by2 <= H
              && (forall px :: InSpan(c.bx1, c.bx2, px) <==> InSpan(0, W, px) && InSpan(x1, x1 + iw, px))
              && (forall py :: InSpan(c.by1, c.by2, py) <==> InSpan(0, H, py) && InSpan(y1, y1 + ih, py))
              && 0 <= c.ix1 < c.ix2 <= iw && 0 <= c.iy1 < c.iy2 <= ih
              && c.ix2 - c.ix1 == c.bx2 - c.bx1 && c.iy2 - c.iy1 == c.by2 - c.by1
              && c.ix1 == c.bx1 - x1 && c.iy1 == c.by1 - y1
  {
  }
}
