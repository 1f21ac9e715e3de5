/** The shared viewer page: the road image is shown letterboxed inside its
    element (uniform scale, centred), markers are placed through the image
    to element transform, and hovering a marker shows the artwork's preview
    on the half of the picture away from the marker, kept inside the drawn
    picture. All lengths are exact reals; the element and natural sizes are
    parameters. */
module Viewer {
  import opened Wrappers
  import opened Placements

  /** `Math.min`, `Math.max`. */
  function Min(a: real, b: real): real { if a <= b then a else b }
  function Max(a: real, b: real): real { if a >= b then a else b }

  datatype DrawInfo = DrawInfo(elW: real, elH: real, iw: real, ih: real, scale: real,
                               drawW: real, drawH: real, offX: real, offY: real)

  /** `getDrawInfo`: the largest scale at which the whole image fits the
      element, the drawn size, and the centring offsets. */
  function GetDrawInfo(elW: real, elH: real, iw: real, ih: real): (d: DrawInfo)
    requires iw > 0.0 && ih > 0.0
    ensures d.scale <= elW / iw && d.scale <= elH / ih
    ensures d.scale == elW / iw || d.scale == elH / ih
  {
    var scale := Min(elW / iw, elH / ih);
    var drawW := iw * scale;
    var drawH := ih * scale;
    DrawInfo(elW, elH, iw, ih, scale, drawW, drawH, (elW - drawW) / 2.0, (elH - drawH) / 2.0)
  }

  lemma ScaledFits(n: real, scale: real, el: real)
    requires n > 0.0 && scale <= el / n
    ensures n * scale <= el
  {
    assert n * (el / n) == el;
    assert n * scale <= n * (el / n);
  }

  /** The drawn picture lies inside the element, is centred in it, fills it
      in at least one direction and keeps the image's aspect ratio. */
  lemma DrawInfoFits(elW: real, elH: real, iw: real, ih: real)
    requires iw > 0.0 && ih > 0.0
    ensures var d := GetDrawInfo(elW, elH, iw, ih);
      && d.drawW <= elW && d.drawH <= elH
      && d.offX >= 0.0 && d.offY >= 0.0
      && d.offX + d.drawW + d.offX == elW && d.offY + d.drawH + d.offY == elH
      && (d.drawW == elW || d.drawH == elH)
      && d.drawW * ih == d.drawH * iw
  {
    var d := GetDrawInfo(elW, elH, iw, ih);
    ScaledFits(iw, d.scale, elW);
    ScaledFits(ih, d.scale, elH);
    if elW / iw <= elH / ih {
      assert d.drawW == iw * (elW / iw) == elW;
    } else {
      assert d.drawH == ih * (elH / ih) == elH;
    }
    assert d.drawW * ih == iw * d.scale * ih == ih * d.scale * iw;
  }

  /** `px`, `py`: image pixel to element position. */
  function Px(d: DrawInfo, x: real): (p: real)
    ensures d.scale >= 0.0 && x >= 0.0 ==> p >= d.offX
  {
    d.offX + x * d.scale
  }

  function Py(d: DrawInfo, y: real): (p: real)
    ensures d.scale >= 0.0 && y >= 0.0 ==> p >= d.offY
  {
    d.offY + y * d.scale
  }

  /** The image's left and right edges land on the drawn picture's edges,
      the transform keeps order, and every pixel of the image lands inside
      the drawn picture (likewise vertically). */
  lemma PxMapsImageOntoPicture(elW: real, elH: real, iw: real, ih: real, x: real, x2: real, y: real)
    requires iw > 0.0 && ih > 0.0 && elW >= 0.0 && elH >= 0.0
    ensures var d := GetDrawInfo(elW, elH, iw, ih);
      && Px(d, 0.0) == d.offX && Px(d, iw) == d.offX + d.drawW
      && Py(d, 0.0) == d.offY && Py(d, ih) == d.offY + d.drawH
      && (x <= x2 ==> Px(d, x) <= Px(d, x2))
      && (0.0 <= x <= iw ==> d.offX <= Px(d, x) <= d.offX + d.drawW)
      && (0.0 <= y <= ih ==> d.offY <= Py(d, y) <= d.offY + d.drawH)
  {
    var d := GetDrawInfo(elW, elH, iw, ih);
    assert d.scale >= 0.0;
    if x <= x2 {
      assert x * d.scale <= x2 * d.scale;
    }
    if 0.0 <= x <= iw {
      assert 0.0 <= x * d.scale <= iw * d.scale;
    }
    if 0.0 <= y <= ih {
      assert 0.0 <= y * d.scale <= ih * d.scale;
    }
  }

  // ----------------------------------------------------------- the preview

  const PreviewMargin: real := 20.0

  /** `offsetWidth || 400`: a preview not laid out yet measures 0. */
  function OrDefault(v: real): real { if v == 0.0 then 400.0 else v }

  /** `Math.max(lo, Math.min(v, hi))`. */
  function Clamp(v: real, lo: real, hi: real): (r: real)
    ensures r >= lo
    ensures lo <= hi ==> lo <= r <= hi
    ensures lo <= v <= hi ==> r == v
    ensures lo > hi ==> r == lo
  {
    Max(lo, Min(v, hi))
  }

  datatype Position = Position(x: real, y: real)

  /** The preview goes at the right of the picture for a marker in the left
      half of the image, at the left otherwise; vertically centred. */
  function PlaceRight(naturalWidth: real, imgX: real): bool {
    imgX < naturalWidth / 2.0
  }

  /** The position the positioning callback gives the preview box. */
  function PreviewPosition(d: DrawInfo, naturalWidth: real, imgX: real, offsetW: real, offsetH: real): (p: Position)
    ensures p.x >= d.offX + PreviewMargin && p.y >= d.offY + PreviewMargin
  {
    var w := OrDefault(offsetW);
    var h := OrDefault(offsetH);
    var x0 := if PlaceRight(naturalWidth, imgX) then d.offX + d.drawW - w - PreviewMargin else d.offX + PreviewMargin;
    var y0 := d.offY + (d.drawH - h) / 2.0;
    Position(Clamp(x0, d.offX + PreviewMargin, d.offX + d.drawW - w - PreviewMargin),
             Clamp(y0, d.offY + PreviewMargin, d.offY + d.drawH - h - PreviewMargin))
  }

  /** The box never starts less than a margin from the picture's top-left
      corner. When it fits with a margin on both sides it stays inside the
      picture, against the right edge for a left-half marker and against
      the left edge otherwise, and vertically centred. */
  lemma PreviewPlacement(d: DrawInfo, naturalWidth: real, imgX: real, offsetW: real, offsetH: real)
    ensures var p := PreviewPosition(d, naturalWidth, imgX, offsetW, offsetH);
      var w, h := OrDefault(offsetW), OrDefault(offsetH);
      && p.x >= d.offX + PreviewMargin
      && p.y >= d.offY + PreviewMargin
      && (w + 2.0 * PreviewMargin <= d.drawW ==>
            && p.x + w + PreviewMargin <= d.offX + d.drawW
            && (imgX < naturalWidth / 2.0 ==> p.x == d.offX + d.drawW - w - PreviewMargin)
            && (imgX >= naturalWidth / 2.0 ==> p.x == d.offX + PreviewMargin))
      && (h + 2.0 * PreviewMargin <= d.drawH ==>
            && p.y + h + PreviewMargin <= d.offY + d.drawH
            && p.y - d.offY == d.offY + d.drawH - (p.y + h))
  {
  }

  /** `showPreview`: nothing is shown for a falsy icon or one without an
      artwork URL; otherwise the preview is placed as above. */
  function ShowPreview(iconId: Field, artworkUrls: map<string, string>, d: DrawInfo, naturalWidth: real,
                       imgX: real, offsetW: real, offsetH: real): (r: Option<Position>)
    ensures r.Some? <==> Truthy(iconId) && FieldText(iconId) in artworkUrls && artworkUrls[FieldText(iconId)] != ""
    ensures r.Some? ==> r.value == PreviewPosition(d, naturalWidth, imgX, offsetW, offsetH)
  {
    if !Truthy(iconId) || FieldText(iconId) !in artworkUrls || artworkUrls[FieldText(iconId)] == "" then None
    else Some(PreviewPosition(d, naturalWidth, imgX, offsetW, offsetH))
  }
}
