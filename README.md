# Salt Shaker compositor — a Dafny model

Salt Shaker is a one-page browser tool. The user picks, drops or pastes an
image. The tool paints it on a black 400 by 400 preview canvas, cropped to a
square ("cover fit"), with a fixed decorative overlay (`overlay.png`) on top.
The same picture can be copied to the clipboard or downloaded at 1024 by 1024.
All of the logic sits in `script.js`, in the class `SaltShakerApp`.

This project models that class:

- `Geometry` (geometry.dfy): the cover-fit crop of `drawImageToFit` and
  `drawImageToFitExport`, computed in exact reals. It proves that the crop
  lies inside the image, has the destination's aspect ratio, and is centred.
  It also proves which branch is taken, that there is no crop when the aspect
  ratios agree, and that the crop is the largest rectangle of that aspect
  ratio that fits. An independent description (`IsCoverRect`) pins the crop
  down uniquely, and the crop is shown to depend only on the destination's
  shape, not its size.
- `Drawing` (drawing.dfy): a canvas 2D context as a class that records every
  `fillRect`/`drawImage` call in a sequence. `Composite` is the frame that a
  redraw or an export paints: background, then the cover-fitted user image,
  then the overlay stretched over the whole surface. Lemmas prove the layer
  order, that every layer covers the whole surface, and that a frame keeps
  the same layers at any size of the same shape.
- `Selection` (selection.dfy): the choice of which file goes on. A drop or the
  file chooser passes `files[0]`. A paste scans the clipboard items for the
  first type containing `"image"` and stops there. `handleFile` checks that
  the type starts with `image/`.
- `SaltShaker` (app.dfy): `SaltShakerApp` as a class holding the preview
  canvas, the two optional images and the dropzone's `hidden` flag. Browser
  load callbacks are methods. Its invariant `Valid` says the preview is
  400 by 400, the dropzone is hidden exactly when there is a user image, and
  the preview's last frame is the composite of the current images. It also
  says that every file whose read is in progress passed the MIME-type guard,
  and that the user image, when there is one, is labelled by the name of the
  file it was decoded from, which passed the guard. The exports
  compose the same frame on a fresh 1024 by 1024 canvas.

Image sizes are positive integers. Crop coordinates are exact reals, so the
rounding of the browser's double-precision divisions is not modelled.

## Model

| member | source | states |
|---|---|---|
| Geometry.CoverCrop | script.js:152-169 | the crop of `drawImageToFit` (and of `drawImageToFitExport`, script.js:265-282): the same aspect test and the same two branches, in exact reals; its contract says both sides are positive |
| Geometry.AspectComparison | script.js:153-161 | comparing `image.width / image.height` with `width / height` is the same as comparing the cross products |
| Geometry.CoverCropShape | script.js:156-169 | a relatively wider image keeps its full height with `sourceY = 0`, and `sourceX` trims equal strips from the sides; any other image keeps its full width with `sourceX = 0`, and `sourceY` trims equal strips from top and bottom |
| Geometry.CoverCropInside | script.js:156-169 | for positive sizes the crop stays inside the image: `0 ≤ sourceX`, `0 ≤ sourceY`, `sourceX + sourceWidth ≤ image.width`, `sourceY + sourceHeight ≤ image.height` |
| Geometry.CoverCropAspect | script.js:161-169 | `sourceWidth * height == sourceHeight * width`: the crop has the destination's aspect ratio |
| Geometry.CoverCropCentred | script.js:161-169 | `2*sourceX + sourceWidth == image.width` and `2*sourceY + sourceHeight == image.height` |
| Geometry.CoverCropBranch | script.js:161-169 | `sourceX == 0` exactly when the image is not relatively wider, and then the full width is kept; `sourceY == 0` exactly when it is not relatively taller, and then the full height is kept |
| Geometry.CoverCropNoCropWhenSameAspect | script.js:161-169 | equal aspect ratios take the else branch and give the whole image, uncropped |
| Geometry.CoverCropMaximal | script.js:152-176 | every rectangle of the destination's aspect ratio inside the image is at most as wide and as tall as the crop: the fit covers and does not letterbox |
| Geometry.CoverCropCharacterised | script.js:152-176 | a rectangle is the crop if and only if it is inside the image, has the destination's aspect ratio, is centred, and spans the full width or the full height |
| Geometry.CoverCropScaleInvariant | script.js:265-282 | the crop depends only on `width / height`: two destinations of the same shape get the same source rectangle |
| Geometry.CoverCropUniformScale | script.js:171-175 | scaling the crop onto `(0, 0, width, height)` uses one factor for both axes, so the image is not distorted |
| Geometry.LandscapeOnSquare | script.js:161-164 | an 800 by 600 image on a square canvas gives `(100, 0, 600, 600)` |
| Geometry.PortraitOnSquare | script.js:165-168 | a 600 by 800 image on a square canvas gives `(0, 100, 600, 600)` |
| Geometry.SquareOnSquare | script.js:165-168 | a 1000 by 1000 image on a square canvas is not cropped |
| Drawing.FitDraw | script.js:171-175 | the fitted draw takes its source from a cover rectangle of the image and its destination is always `(0, 0, width, height)` |
| Drawing.Composite | script.js:130-150 | one frame of `redrawCanvas` (and of the exports, script.js:192-204): between one and three operations, the first the black background fill, each drawn onto the whole surface |
| Drawing.CompositeLayers | script.js:130-150 | a frame is the background fill first; the user image second exactly when it is set; the overlay last, at full size, exactly when it is set |
| Drawing.CompositeCoversSurface | script.js:130-150 | every layer of a frame is drawn onto the whole surface; the only cropped draw is of the user image, from a centred crop of the surface's aspect ratio inside it |
| Drawing.CompositeSizeIndependent | script.js:181-204 | a frame composed at two sizes of the same shape has the same layers, images and source rectangles; only the destinations differ |
| Drawing.Canvas.constructor | script.js:181-184 | a new canvas of the given size with nothing drawn on it |
| Drawing.Canvas.FillRect | script.js:132-133 | `fillStyle`/`fillRect` records one fill of the given rectangle and nothing else |
| Drawing.Canvas.DrawImagePart | script.js:171-175 | the nine-argument `drawImage` records one draw of a source rectangle onto a destination |
| Drawing.Canvas.DrawImage | script.js:148 | the five-argument `drawImage` records one draw of the whole image onto a destination |
| Selection.IsImageType | script.js:113 | `type.startsWith('image/')`: true exactly when `image/` occurs at position 0 of the type |
| Selection.Contains | script.js:61 | `type.indexOf('image') !== -1`: a prefix always counts as contained, and nothing longer than the string is contained |
| Selection.ContainsOccurs | script.js:61 | `indexOf(sub) !== -1` holds exactly when `sub` occurs at some position of the string |
| Selection.ImageTypeIsPasteCandidate | script.js:113 | every type that `handleFile` accepts (starts with `image/`) also passes the paste filter |
| Selection.PasteCandidateMayBeRejected | script.js:60-65 | the paste filter is weaker than the guard: `text/x-image` is picked by a paste and then rejected by `handleFile` |
| Selection.FirstFile | script.js:51-54 | a drop passes on a file exactly when there is one, and it is `files[0]` |
| Selection.PasteSelection | script.js:58-67 | a paste passes on nothing exactly when no item's type contains `"image"`; otherwise it passes on the first such item's file and looks no further |
| SaltShaker.App.constructor | script.js:1-29 | starts with no overlay, no user image, no read in progress, the dropzone shown, and one black fill on the 400 by 400 preview; `Valid` holds |
| SaltShaker.App.DrawInitialCanvas | script.js:91-98 | appends one black fill of the whole canvas and shows the dropzone |
| SaltShaker.App.OnOverlayLoaded | script.js:79-89 | a loaded `overlay.png` becomes the overlay, the user image is untouched, and one full frame is appended; `Valid` is kept |
| SaltShaker.App.HandleFile | script.js:112-128 | a file is rejected with the alert "Please select an image file." exactly when its type does not start with `image/`, and then nothing changes; otherwise a read of that file starts; the images and the canvas are untouched either way |
| SaltShaker.App.OnDrop | script.js:48-55 | a drop (and a file-chooser change, script.js:104-108) hands only `files[0]` to the guard, and nothing when the list is empty; a read starts only for an accepted file |
| SaltShaker.App.OnPaste | script.js:58-67 | a paste hands the guard the file of the first item whose type contains `"image"`; the guard's verdict follows that file's own type, and a read starts only if it accepts |
| SaltShaker.App.OnUserImageDecoded | script.js:119-124 | only a read that `HandleFile` started can finish; its decoded image replaces the user image (never back to none) and came from a file the guard accepted; the read is no longer pending, the dropzone is hidden, the overlay is untouched, and one full frame is appended; `Valid` is kept |
| SaltShaker.App.RedrawCanvas | script.js:130-150 | appends exactly the frame for the current images at the canvas's size, and hides the dropzone exactly when a user image is set |
| SaltShaker.App.DrawImageToFit | script.js:152-176 | appends one cover-fitted draw of the image onto the whole preview |
| SaltShaker.App.DrawImageToFitExport | script.js:265-289 | appends to the given context the same fitted draw that `DrawImageToFit` makes when the sizes agree, with destination `(0, 0, width, height)` |
| SaltShaker.App.ComposeExport | script.js:181-204 | the export surface is the frame for the current images at 1024 by 1024, whatever the preview size |
| SaltShaker.App.CopyToClipboard | script.js:178-222 | the clipboard receives a PNG of the 1024 by 1024 frame |
| SaltShaker.App.DownloadImage | script.js:224-263 | the download is a PNG named `salt-shaker-pfp.png` holding the 1024 by 1024 frame |
| SaltShaker.UserImageFromAcceptedFile | script.js:112-124 | in every state `Valid` allows, the user image is labelled by the name of the file it was decoded from, and that file's type starts with `image/` |
| SaltShaker.ExportMatchesPreview | script.js:182-204 | the export frame has the preview frame's layers in the same order, with the same images and source rectangles, each drawn over the whole 1024 by 1024 surface |

## Left out

- Floating point: crop arithmetic is exact; the rounding of the browser's divisions is not modelled.
- Images of width or height 0: sizes are positive integers. The source would divide by zero for them.
- Pixels and resampling: draws are recorded, not rasterised. The `imageSmoothingEnabled` flags (script.js:14-17, 187-190, 233-236) have no modelled effect.
- Asynchronous decoding: `FileReader` and `Image.onload` are not modelled themselves. Their completions are the callback methods `OnUserImageDecoded` and `OnOverlayLoaded`, which the platform may call in any order. So two overlapping reads end with the one that finishes last, as in the source. A failed read or decode leaves its file pending and changes nothing. A failed overlay load (script.js:85-87) only logs and changes nothing, so it has no method.
- The user image is labelled by the name of its file. The contents of the data URL are not modelled.
- `getAsFile()` returning null for a non-file clipboard item is not modelled: every clipboard item carries a file.
- Encoding and platform I/O: `toBlob`, `toDataURL`, `navigator.clipboard.write` and the click on the download link are not modelled. Their failures and the notification messages are not modelled either. The exports return the frame, the MIME type and the file name that they would hand over.
- DOM glue: element lookups, event-listener registration, the border-colour changes on drag, and `showNotification` with its 3-second timer (script.js:3-11, 31-46, 291-320).
