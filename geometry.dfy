/** Cover-fit crop geometry: the centred source rectangle that `drawImageToFit`
    and `drawImageToFitExport` cut out of an image before scaling it onto the
    whole destination surface. Exact real arithmetic stands for the
    browser's double-precision divisions. */
module Geometry {

  /** An axis-aligned rectangle given by its top-left corner and its size,
      the four numbers a canvas `drawImage` call takes for a source or a
      destination. */
  datatype Rect = Rect(x: real, y: real, w: real, h: real)

  /** The rectangle that covers a whole `width` by `height` surface. */
  function FullRect(width: real, height: real): (r: Rect)
  {
    Rect(0.0, 0.0, width, height)
  }

  /** `r` lies within the `imageW` by `imageH` image. */
  predicate Inside(r: Rect, imageW: real, imageH: real)
  {
    0.0 <= r.x && 0.0 <= r.y && 0.0 <= r.w && 0.0 <= r.h &&
    r.x + r.w <= imageW && r.y + r.h <= imageH
  }

  /** `r` has the aspect ratio `canvasW : canvasH`, stated without division. */
  predicate HasAspect(r: Rect, canvasW: real, canvasH: real)
  {
    r.w * canvasH == r.h * canvasW
  }

  /** `r` is centred in the `imageW` by `imageH` image. */
  predicate Centred(r: Rect, imageW: real, imageH: real)
  {
    2.0 * r.x + r.w == imageW && 2.0 * r.y + r.h == imageH
  }

  /** The image is relatively wider than the canvas: imageW/imageH > canvasW/canvasH,
      cross-multiplied. */
  predicate Wider(imageW: real, imageH: real, canvasW: real, canvasH: real)
  {
    imageW * canvasH > imageH * canvasW
  }

  /** An independent description of a cover crop: a centred rectangle of the
      canvas's aspect ratio, inside the image, that spans the image's full
      width or its full height. */
  predicate IsCoverRect(r: Rect, imageW: real, imageH: real, canvasW: real, canvasH: real)
  {
    Inside(r, imageW, imageH) && HasAspect(r, canvasW, canvasH) &&
    Centred(r, imageW, imageH) && (r.w == imageW || r.h == imageH)
  }

  /** The source rectangle of the cover fit, computed as the source does:
      compare the two aspect ratios; a relatively wider image keeps its full
      height and loses equal strips left and right, any other image keeps
      its full width and loses equal strips top and bottom. */
  function CoverCrop(imageW: real, imageH: real, canvasW: real, canvasH: real): (r: Rect)
    requires imageW > 0.0 && imageH > 0.0 && canvasW > 0.0 && canvasH > 0.0
    ensures r.w > 0.0 && r.h > 0.0
  {
    var canvasAspect := canvasW / canvasH;
    var imageAspect := imageW / imageH;
    if imageAspect > canvasAspect then
      var sourceWidth := imageH * canvasAspect;
      Rect((imageW - sourceWidth) / 2.0, 0.0, sourceWidth, imageH)
    else
      var sourceHeight := imageW / canvasAspect;
      Rect(0.0, (imageH - sourceHeight) / 2.0, imageW, sourceHeight)
  }

  /** Comparing the two quotients is comparing the cross products. */
  lemma AspectComparison(imageW: real, imageH: real, canvasW: real, canvasH: real)
    requires imageW > 0.0 && imageH > 0.0 && canvasW > 0.0 && canvasH > 0.0
    ensures (imageW / imageH > canvasW / canvasH) <==> Wider(imageW, imageH, canvasW, canvasH)
  {
  }

  /** What the crop is in each branch, in closed form. */
  lemma CoverCropShape(imageW: real, imageH: real, canvasW: real, canvasH: real)
    requires imageW > 0.0 && imageH > 0.0 && canvasW > 0.0 && canvasH > 0.0
    ensures var r := CoverCrop(imageW, imageH, canvasW, canvasH);
      if Wider(imageW, imageH, canvasW, canvasH) then
        r.h == imageH && r.y == 0.0 && r.w * canvasH == imageH * canvasW && r.x == (imageW - r.w) / 2.0
      else
        r.w == imageW && r.x == 0.0 && r.h * canvasW == imageW * canvasH && r.y == (imageH - r.h) / 2.0
  {
  }

  /** The crop never reaches outside the image. */
  lemma CoverCropInside(imageW: real, imageH: real, canvasW: real, canvasH: real)
    requires imageW > 0.0 && imageH > 0.0 && canvasW > 0.0 && canvasH > 0.0
    ensures Inside(CoverCrop(imageW, imageH, canvasW, canvasH), imageW, imageH)
  {
  }

  /** The crop has exactly the destination's aspect ratio, so scaling it onto
      the destination does not distort the image. */
  lemma CoverCropAspect(imageW: real, imageH: real, canvasW: real, canvasH: real)
    requires imageW > 0.0 && imageH > 0.0 && canvasW > 0.0 && canvasH > 0.0
    ensures HasAspect(CoverCrop(imageW, imageH, canvasW, canvasH), canvasW, canvasH)
  {
  }

  /** The crop is centred in the image. */
  lemma CoverCropCentred(imageW: real, imageH: real, canvasW: real, canvasH: real)
    requires imageW > 0.0 && imageH > 0.0 && canvasW > 0.0 && canvasH > 0.0
    ensures Centred(CoverCrop(imageW, imageH, canvasW, canvasH), imageW, imageH)
  {
  }

  /** The branch taken is decided by the aspect ratios: the crop starts at the
      left edge exactly when the image is not relatively wider, and at the
      top edge exactly when it is not relatively taller. */
  lemma CoverCropBranch(imageW: real, imageH: real, canvasW: real, canvasH: real)
    requires imageW > 0.0 && imageH > 0.0 && canvasW > 0.0 && canvasH > 0.0
    ensures var r := CoverCrop(imageW, imageH, canvasW, canvasH);
      && (r.x == 0.0 <==> imageW * canvasH <= imageH * canvasW)
      && (r.y == 0.0 <==> imageW * canvasH >= imageH * canvasW)
      && (r.x == 0.0 ==> r.w == imageW)
      && (r.y == 0.0 ==> r.h == imageH)
  {
  }

  /** When the aspect ratios agree nothing is cut away. */
  lemma CoverCropNoCropWhenSameAspect(imageW: real, imageH: real, canvasW: real, canvasH: real)
    requires imageW > 0.0 && imageH > 0.0 && canvasW > 0.0 && canvasH > 0.0
    requires imageW * canvasH == imageH * canvasW
    ensures CoverCrop(imageW, imageH, canvasW, canvasH) == FullRect(imageW, imageH)
  {
  }

  /** The crop is the largest rectangle of the canvas's aspect ratio that
      fits in the image: this is what makes the fit a cover and not a
      letterbox. */
  lemma CoverCropMaximal(imageW: real, imageH: real, canvasW: real, canvasH: real, q: Rect)
    requires imageW > 0.0 && imageH > 0.0 && canvasW > 0.0 && canvasH > 0.0
    requires Inside(q, imageW, imageH) && HasAspect(q, canvasW, canvasH)
    ensures var r := CoverCrop(imageW, imageH, canvasW, canvasH);
      q.w <= r.w && q.h <= r.h
  {
  }

  /** The crop meets the independent description of a cover crop, and is the
      only rectangle that does. */
  lemma CoverCropCharacterised(imageW: real, imageH: real, canvasW: real, canvasH: real, q: Rect)
    requires imageW > 0.0 && imageH > 0.0 && canvasW > 0.0 && canvasH > 0.0
    ensures IsCoverRect(q, imageW, imageH, canvasW, canvasH)
        <==> q == CoverCrop(imageW, imageH, canvasW, canvasH)
  {
    var r := CoverCrop(imageW, imageH, canvasW, canvasH);
    CoverCropShape(imageW, imageH, canvasW, canvasH);
    CoverCropInside(imageW, imageH, canvasW, canvasH);
    CoverCropBranch(imageW, imageH, canvasW, canvasH);
    if IsCoverRect(q, imageW, imageH, canvasW, canvasH) {
      CoverCropMaximal(imageW, imageH, canvasW, canvasH, q);
      if q.h == imageH {
        assert q.w * canvasH == imageH * canvasW;
        assert r.h == imageH;
        assert r.w * canvasH == imageH * canvasW;
        assert q.w == r.w;
      } else {
        assert q.w == imageW;
        assert q.h * canvasW == imageW * canvasH;
        assert r.w == imageW;
        assert r.h * canvasW == imageW * canvasH;
        assert q.h == r.h;
      }
    }
  }

  /** Only the canvas's aspect ratio matters: two destinations of the same
      shape get the same crop, whatever their size. */
  lemma CoverCropScaleInvariant(imageW: real, imageH: real, w1: real, h1: real, w2: real, h2: real)
    requires imageW > 0.0 && imageH > 0.0 && w1 > 0.0 && h1 > 0.0 && w2 > 0.0 && h2 > 0.0
    requires w1 * h2 == w2 * h1
    ensures CoverCrop(imageW, imageH, w1, h1) == CoverCrop(imageW, imageH, w2, h2)
  {
  }

  /** `CoverCropAspect` read as scale factors: the destination is reached
      from the crop by one uniform scale factor on both axes. */
  lemma CoverCropUniformScale(imageW: real, imageH: real, canvasW: real, canvasH: real)
    requires imageW > 0.0 && imageH > 0.0 && canvasW > 0.0 && canvasH > 0.0
    ensures var r := CoverCrop(imageW, imageH, canvasW, canvasH);
      canvasW / r.w == canvasH / r.h
  {
  }

  /** A landscape 800 by 600 image on a square canvas loses 100 columns on
      each side. */
  lemma LandscapeOnSquare()
    ensures CoverCrop(800.0, 600.0, 400.0, 400.0) == Rect(100.0, 0.0, 600.0, 600.0)
  {
  }

  /** A portrait 600 by 800 image on a square canvas loses 100 rows at the top
      and at the bottom. */
  lemma PortraitOnSquare()
    ensures CoverCrop(600.0, 800.0, 1024.0, 1024.0) == Rect(0.0, 100.0, 600.0, 600.0)
  {
  }

  /** A square image on a square canvas is not cropped. */
  lemma SquareOnSquare()
    ensures CoverCrop(1000.0, 1000.0, 400.0, 400.0) == Rect(0.0, 0.0, 1000.0, 1000.0)
  {
  }
}
