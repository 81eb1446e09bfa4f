/** A recording 2D drawing surface and the frame the compositor paints on it:
    background, the user's image cover-fitted, the overlay stretched over the
    whole surface. Pixels are not computed; each call is kept as a drawing
    operation in the order it was issued. */
module Drawing {
  import opened Wrappers
  import opened Geometry

  /** Pixel dimensions of a decoded image or a canvas. */
  type Pos = n: int | n > 0 witness 1

  /** A decoded raster: where it was loaded from and its natural size. */
  datatype Image = Image(source: string, width: Pos, height: Pos)

  /** One call on a 2D context. */
  datatype DrawOp =
    | Fill(style: string, dest: Rect)                 // fillStyle = style; fillRect(dest)
    | DrawPart(image: Image, src: Rect, dest: Rect)   // drawImage with a source rectangle
    | DrawWhole(image: Image, dest: Rect)             // drawImage of the whole image into dest

  /** The fill style of the background, black. */
  const Background: string := "#000"

  /** The whole surface of a `width` by `height` canvas. */
  function Surface(width: Pos, height: Pos): (r: Rect)
  {
    FullRect(width as real, height as real)
  }

  /** The cover-fit draw of `image` onto a whole `width` by `height` surface. */
  function FitDraw(image: Image, width: Pos, height: Pos): (op: DrawOp)
    ensures op.DrawPart? && op.image == image && op.dest == Surface(width, height)
    ensures IsCoverRect(op.src, image.width as real, image.height as real, width as real, height as real)
  {
    var src := CoverCrop(image.width as real, image.height as real, width as real, height as real);
    CoverCropCharacterised(image.width as real, image.height as real, width as real, height as real, src);
    DrawPart(image, src, Surface(width, height))
  }

  /** The operations of one full redraw or export: background, then the user
      image if there is one, then the overlay if there is one. */
  function Composite(pfp: Option<Image>, overlay: Option<Image>, width: Pos, height: Pos): (ops: seq<DrawOp>)
    ensures 1 <= |ops| <= 3 && ops[0] == Fill(Background, Surface(width, height))
    ensures forall i | 0 <= i < |ops| :: Dest(ops[i]) == Surface(width, height)
  {
    [Fill(Background, Surface(width, height))]
    + (if pfp.Some? then [FitDraw(pfp.value, width, height)] else [])
    + (if overlay.Some? then [DrawWhole(overlay.value, Surface(width, height))] else [])
  }

  /** The destination rectangle of an operation. */
  function Dest(op: DrawOp): (r: Rect)
  {
    match op
    case Fill(_, dest) => dest
    case DrawPart(_, _, dest) => dest
    case DrawWhole(_, dest) => dest
  }

  /** `s` ends with `suffix`: the last frame on a surface. */
  predicate EndsWith(s: seq<DrawOp>, suffix: seq<DrawOp>)
  {
    |suffix| <= |s| && s[|s| - |suffix|..] == suffix
  }

  /** The layering of a frame: the background comes first, the user image is
      drawn (second) exactly when there is one, and the overlay is drawn last
      exactly when there is one. */
  lemma CompositeLayers(pfp: Option<Image>, overlay: Option<Image>, width: Pos, height: Pos)
    ensures var ops := Composite(pfp, overlay, width, height);
      && |ops| == 1 + (if pfp.Some? then 1 else 0) + (if overlay.Some? then 1 else 0)
      && ops[0] == Fill(Background, Surface(width, height))
      && (pfp.Some? <==> exists i | 0 <= i < |ops| :: ops[i].DrawPart?)
      && (pfp.Some? ==> ops[1] == FitDraw(pfp.value, width, height))
      && (overlay.Some? <==> ops[|ops| - 1].DrawWhole?)
      && (overlay.Some? ==> ops[|ops| - 1] == DrawWhole(overlay.value, Surface(width, height)))
  {
    var ops := Composite(pfp, overlay, width, height);
    if pfp.Some? {
      assert ops[1].DrawPart?;
    }
  }

  /** Every layer of a frame paints the whole surface, and the user image is
      drawn from a centred, undistorted crop inside it. */
  lemma CompositeCoversSurface(pfp: Option<Image>, overlay: Option<Image>, width: Pos, height: Pos)
    ensures var ops := Composite(pfp, overlay, width, height);
      forall i | 0 <= i < |ops| ::
        && Dest(ops[i]) == Surface(width, height)
        && (ops[i].DrawPart? ==>
              ops[i].image == pfp.value &&
              IsCoverRect(ops[i].src, ops[i].image.width as real, ops[i].image.height as real,
                          width as real, height as real))
  {
  }

  /** The layer of `a` redrawn at another size: same kind, same image, same
      source rectangle. */
  predicate SameLayer(a: DrawOp, b: DrawOp)
  {
    match (a, b)
    case (Fill(s, _), Fill(t, _)) => s == t
    case (DrawPart(i, r, _), DrawPart(j, q, _)) => i == j && r == q
    case (DrawWhole(i, _), DrawWhole(j, _)) => i == j
    case _ => false
  }

  /** A frame composed at one size is the frame composed at any other size of
      the same shape, layer by layer: the same images cut out at the same
      rectangles, only the destinations differ. This is why the 1024 by 1024
      export shows what the 400 by 400 preview shows. */
  lemma CompositeSizeIndependent(pfp: Option<Image>, overlay: Option<Image>,
                                 w1: Pos, h1: Pos, w2: Pos, h2: Pos)
    requires w1 * h2 == w2 * h1
    ensures var a, b := Composite(pfp, overlay, w1, h1), Composite(pfp, overlay, w2, h2);
      |a| == |b| &&
      forall i | 0 <= i < |a| :: SameLayer(a[i], b[i]) && Dest(b[i]) == Surface(w2, h2)
  {
  }

  /** A recorded 2D context of a canvas of fixed size. */
  class Canvas {
    const width: Pos
    const height: Pos
    /** Every operation issued on this context so far, oldest first. */
    var ops: seq<DrawOp>

    constructor (width: Pos, height: Pos)
      ensures this.width == width && this.height == height && ops == []
    {
      this.width := width;
      this.height := height;
      ops := [];
    }

    /** `fillStyle = style; fillRect(dest)`. */
    method FillRect(style: string, dest: Rect)
      modifies this
      ensures ops == old(ops) + [Fill(style, dest)]
    {
      ops := ops + [Fill(style, dest)];
    }

    /** `drawImage(image, src…, dest…)`: the `src` part of the image scaled onto `dest`. */
    method DrawImagePart(image: Image, src: Rect, dest: Rect)
      modifies this
      ensures ops == old(ops) + [DrawPart(image, src, dest)]
    {
      ops := ops + [DrawPart(image, src, dest)];
    }

    /** `drawImage(image, dest…)`: the whole image scaled onto `dest`. */
    method DrawImage(image: Image, dest: Rect)
      modifies this
      ensures ops == old(ops) + [DrawWhole(image, dest)]
    {
      ops := ops + [DrawWhole(image, dest)];
    }
  }
}
