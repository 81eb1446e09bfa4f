/** The Salt Shaker profile-picture compositor: a 400 by 400 preview canvas,
    the user's image and the decorative overlay it holds, the dropzone hint,
    and the 1024 by 1024 exports. Browser callbacks (an image finished
    decoding) are methods the platform calls; reading files and encoding
    images are left to the platform. */
module SaltShaker {
  import opened Wrappers
  import opened Geometry
  import opened Drawing
  import opened Selection

  /** Side of the square preview canvas. */
  const PreviewSize: Pos := 400
  /** Side of the square exported image. */
  const ExportSize: Pos := 1024
  /** Where the overlay is loaded from. */
  const OverlayPath: string := "overlay.png"
  /** Encoding of every export. */
  const PngType: string := "image/png"
  /** Name of the downloaded file. */
  const DownloadName: string := "salt-shaker-pfp.png"

  /** What `handleFile` does with an offered file: alert and stop, or start
      reading it as a data URL. */
  datatype FileOutcome = Rejected(alert: string) | Reading(file: File)

  /** The composite put on the clipboard. */
  datatype ClipboardPayload = ClipboardPayload(mimeType: string, surface: seq<DrawOp>)

  /** The composite saved as a file. */
  datatype Download = Download(fileName: string, mimeType: string, surface: seq<DrawOp>)

  /** The read an event handler started, if any: the file of a `Reading`
      outcome, once, and nothing for a rejection or no outcome. */
  ghost function Started(outcome: Option<FileOutcome>): (m: multiset<File>)
    ensures |m| <= 1
    ensures forall f :: f in m <==> outcome.Some? && outcome.value.Reading? && f == outcome.value.file
  {
    if outcome.Some? && outcome.value.Reading? then multiset{outcome.value.file} else multiset{}
  }

  class App {
    /** The preview canvas's context. */
    const canvas: Canvas
    /** The decorative overlay, once it has loaded. */
    var overlayImage: Option<Image>
    /** The user's image, once one has loaded. */
    var pfpImage: Option<Image>
    /** Whether the dropzone hint has the `hidden` class. */
    var dropzoneHidden: bool
    /** The files whose reading `HandleFile` has started and whose image has
        not finished decoding yet. */
    ghost var pendingReads: multiset<File>
    /** The file the current user image was decoded from. */
    ghost var pfpFile: Option<File>

    /** Where the user image comes from: only files that passed the MIME-type
        guard are ever read, and the user image, when there is one, is labelled
        by the file it was decoded from, which passed the guard. */
    ghost predicate Provenance()
      reads this
    {
      && (forall f | f in pendingReads :: IsImageType(f.mimeType))
      && pfpImage.Some? == pfpFile.Some?
      && (pfpFile.Some? ==> IsImageType(pfpFile.value.mimeType))
      && (pfpImage.Some? ==> pfpImage.value.source == pfpFile.value.name)
    }

    /** The preview is 400 by 400, the hint is hidden exactly when a user image
        is shown, the last frame on the preview is the composite of the
        current images, and the user image is labelled by a file that passed
        the guard (`Provenance`). */
    ghost predicate Valid()
      reads this, canvas
    {
      && canvas.width == PreviewSize && canvas.height == PreviewSize
      && dropzoneHidden == pfpImage.Some?
      && EndsWith(canvas.ops, Composite(pfpImage, overlayImage, PreviewSize, PreviewSize))
      && Provenance()
    }

    /** Sets up the preview with no images and draws the empty canvas. */
    constructor ()
      ensures Valid() && fresh(canvas)
      ensures pfpImage == None && overlayImage == None && !dropzoneHidden
      ensures pendingReads == multiset{}
      ensures canvas.ops == [Fill(Background, Surface(PreviewSize, PreviewSize))]
    {
      canvas := new Canvas(PreviewSize, PreviewSize);
      overlayImage := None;
      pfpImage := None;
      pendingReads := multiset{};
      pfpFile := None;
      new;
      DrawInitialCanvas();
    }

    /** Paints the background and shows the dropzone hint. */
    method DrawInitialCanvas()
      modifies canvas, this`dropzoneHidden
      ensures canvas.ops == old(canvas.ops) + [Fill(Background, Surface(canvas.width, canvas.height))]
      ensures !dropzoneHidden
    {
      canvas.FillRect(Background, Surface(canvas.width, canvas.height));
      dropzoneHidden := false;
    }

    /** The overlay finished loading: keep it and redraw. (When it fails to
        load nothing changes.) */
    method OnOverlayLoaded(width: Pos, height: Pos)
      requires Valid()
      modifies this`overlayImage, this`dropzoneHidden, canvas
      ensures Valid()
      ensures overlayImage == Some(Image(OverlayPath, width, height))
      ensures pfpImage == old(pfpImage)
      ensures canvas.ops == old(canvas.ops) + Composite(pfpImage, overlayImage, PreviewSize, PreviewSize)
    {
      overlayImage := Some(Image(OverlayPath, width, height));
      RedrawCanvas();
    }

    /** The MIME-type guard: a file whose type does not start with "image/"
        is refused with an alert and nothing changes; any other starts being
        read. The images and the canvas are untouched either way. */
    method HandleFile(file: File) returns (outcome: FileOutcome)
      requires Valid()
      modifies this`pendingReads
      ensures Valid()
      ensures outcome.Rejected? <==> !IsImageType(file.mimeType)
      ensures outcome.Rejected? ==> outcome.alert == RejectMessage && pendingReads == old(pendingReads)
      ensures outcome.Reading? ==> outcome.file == file && pendingReads == old(pendingReads) + multiset{file}
    {
      if !IsImageType(file.mimeType) {
        return Rejected(RejectMessage);
      }
      pendingReads := pendingReads + multiset{file};
      outcome := Reading(file);
    }

    /** A drop (or a choice in the file dialog) hands on only its first file. */
    method OnDrop(files: seq<File>) returns (outcome: Option<FileOutcome>)
      requires Valid()
      modifies this`pendingReads
      ensures Valid()
      ensures pendingReads == old(pendingReads) + Started(outcome)
      ensures outcome.Some? <==> |files| > 0
      ensures outcome.Some? ==>
        (outcome.value.Rejected? <==> !IsImageType(files[0].mimeType)) &&
        (outcome.value.Reading? ==> outcome.value.file == files[0])
    {
      var first := FirstFile(files);
      outcome := None;
      if first.Some? {
        var o := HandleFile(first.value);
        outcome := Some(o);
      }
    }

    /** A paste hands on the first clipboard item whose type mentions "image",
        which the guard may still reject. */
    method OnPaste(items: seq<ClipboardItem>) returns (outcome: Option<FileOutcome>)
      requires Valid()
      modifies this`pendingReads
      ensures Valid()
      ensures pendingReads == old(pendingReads) + Started(outcome)
      ensures outcome.None? <==> forall i | 0 <= i < |items| :: !Contains(items[i].mimeType, "image")
      ensures outcome.Some? ==> exists k | 0 <= k < |items| ::
        && Contains(items[k].mimeType, "image")
        && (forall j | 0 <= j < k :: !Contains(items[j].mimeType, "image"))
        && (outcome.value.Rejected? <==> !IsImageType(items[k].file.mimeType))
        && (outcome.value.Reading? ==> outcome.value.file == items[k].file)
    {
      var picked := PasteSelection(items);
      outcome := None;
      if picked.Some? {
        ghost var k :| 0 <= k < |items| && Contains(items[k].mimeType, "image")
          && picked.value == items[k].file
          && forall j | 0 <= j < k :: !Contains(items[j].mimeType, "image");
        var o := HandleFile(picked.value);
        outcome := Some(o);
      }
    }

    /** The read of `file` finished and its image decoded at `width` by
        `height` (the image is labelled by the file's name; the data URL's
        contents are not modelled): it replaces the previous user image (there
        is no way back to no image) and the preview is redrawn. Reads finish
        in any order, so the last one to finish wins. */
    method OnUserImageDecoded(file: File, width: Pos, height: Pos)
      requires Valid()
      requires file in pendingReads
      modifies this`pfpImage, this`pfpFile, this`pendingReads, this`dropzoneHidden, canvas
      ensures Valid()
      ensures pfpImage == Some(Image(file.name, width, height)) && dropzoneHidden
      ensures pfpFile == Some(file) && IsImageType(file.mimeType)
      ensures pendingReads == old(pendingReads) - multiset{file}
      ensures overlayImage == old(overlayImage)
      ensures canvas.ops == old(canvas.ops) + Composite(pfpImage, overlayImage, PreviewSize, PreviewSize)
    {
      pfpImage := Some(Image(file.name, width, height));
      pfpFile := Some(file);
      pendingReads := pendingReads - multiset{file};
      RedrawCanvas();
    }

    /** Repaints the preview from the current images and shows the dropzone
        hint exactly when there is no user image. */
    method RedrawCanvas()
      modifies canvas, this`dropzoneHidden
      ensures canvas.ops == old(canvas.ops) + Composite(pfpImage, overlayImage, canvas.width, canvas.height)
      ensures dropzoneHidden == pfpImage.Some?
      ensures (canvas.width == PreviewSize && canvas.height == PreviewSize && Provenance()) ==> Valid()
    {
      var full := Surface(canvas.width, canvas.height);
      canvas.FillRect(Background, full);
      if pfpImage.Some? {
        dropzoneHidden := true;
        DrawImageToFit(pfpImage.value);
      } else {
        dropzoneHidden := false;
      }
      if overlayImage.Some? {
        canvas.DrawImage(overlayImage.value, full);
      }
    }

    /** Draws the cover-fitted image over the whole preview. */
    method DrawImageToFit(image: Image)
      modifies canvas
      ensures canvas.ops == old(canvas.ops) + [FitDraw(image, canvas.width, canvas.height)]
    {
      var src := CoverCrop(image.width as real, image.height as real,
                           canvas.width as real, canvas.height as real);
      canvas.DrawImagePart(image, src, Surface(canvas.width, canvas.height));
    }

    /** Draws the cover-fitted image over the whole of a `width` by `height`
        surface on `ctx`: the same rectangle `DrawImageToFit` uses when the
        sizes agree. */
    method DrawImageToFitExport(image: Image, ctx: Canvas, width: Pos, height: Pos)
      modifies ctx
      ensures ctx.ops == old(ctx.ops) + [FitDraw(image, width, height)]
    {
      var src := CoverCrop(image.width as real, image.height as real, width as real, height as real);
      ctx.DrawImagePart(image, src, Surface(width, height));
    }

    /** The drawing shared by both exports, on a fresh 1024 by 1024 canvas. */
    method ComposeExport() returns (surface: seq<DrawOp>)
      ensures surface == Composite(pfpImage, overlayImage, ExportSize, ExportSize)
    {
      var exportCanvas := new Canvas(ExportSize, ExportSize);
      exportCanvas.FillRect(Background, Surface(ExportSize, ExportSize));
      if pfpImage.Some? {
        DrawImageToFitExport(pfpImage.value, exportCanvas, ExportSize, ExportSize);
      }
      if overlayImage.Some? {
        exportCanvas.DrawImage(overlayImage.value, Surface(ExportSize, ExportSize));
      }
      surface := exportCanvas.ops;
    }

    /** The PNG put on the clipboard: the 1024 by 1024 composite. */
    method CopyToClipboard() returns (payload: ClipboardPayload)
      ensures payload.mimeType == PngType
      ensures payload.surface == Composite(pfpImage, overlayImage, ExportSize, ExportSize)
    {
      var surface := ComposeExport();
      payload := ClipboardPayload(PngType, surface);
    }

    /** The PNG saved as "salt-shaker-pfp.png": the 1024 by 1024 composite. */
    method DownloadImage() returns (download: Download)
      ensures download.fileName == DownloadName && download.mimeType == PngType
      ensures download.surface == Composite(pfpImage, overlayImage, ExportSize, ExportSize)
    {
      var surface := ComposeExport();
      download := Download(DownloadName, PngType, surface);
    }
  }

  /** In every valid state the user image, when there is one, is labelled by
      the file it was decoded from, and that file passed the MIME-type guard. */
  lemma UserImageFromAcceptedFile(app: App)
    requires app.Valid() && app.pfpImage.Some?
    ensures app.pfpFile.Some? && app.pfpImage.value.source == app.pfpFile.value.name
    ensures IsImageType(app.pfpFile.value.mimeType)
  {
  }

  /** The export repeats the preview's last frame layer by layer at 1024 by
      1024: the same images, cut out at the same rectangles. */
  lemma ExportMatchesPreview(pfp: Option<Image>, overlay: Option<Image>)
    ensures var preview := Composite(pfp, overlay, PreviewSize, PreviewSize);
      var exported := Composite(pfp, overlay, ExportSize, ExportSize);
      |exported| == |preview| &&
      forall i | 0 <= i < |exported| ::
        SameLayer(preview[i], exported[i]) && Dest(exported[i]) == Surface(ExportSize, ExportSize)
  {
    CompositeSizeIndependent(pfp, overlay, PreviewSize, PreviewSize, ExportSize, ExportSize);
  }
}
