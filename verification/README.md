# Konva image-cropping plugin — a Dafny model

This project models the core of `src/utils/konva-crop.js`, a plugin that lets
a `Konva.Image` be cropped interactively. It has three parts:

- **Affine algebra** (`affine.dfy`, module `Affine`). Konva's six-number
  matrix `[a, b, c, d, e, f]` is modelled over exact reals.
  - `getGroupCoords` expresses one node's absolute matrix in the frame of
    another by Cramer's rule.
  - `qrDecompose` splits a matrix into rotation, scale and translation.
- **The crop session** (`crop_session.dfy`, module `CropSession`;
  lemmas relating several calls in `crop_properties.dfy`, module
  `CropProperties`). One image's plugin state is a `Scene`:
  - the optional crop element `_cropElement`, as its attribute map;
  - the optional session: the guide image `cropImage` and its two
    transformers;
  - the image's size and scale;
  - the transformers alive on the stage;
  - the multiset of (target, event, handler) listener registrations.

  Every plugin method is a pure function on a `Scene`. A ghost predicate
  `Valid` states the bookkeeping every method keeps.
- **Painting** (`scene_func.dfy`, module `SceneFunc`). The replacement
  `_sceneFunc` is modelled as the list of canvas-context calls it makes.
  This fixes which rectangles reach `drawImage` and shows that
  `save`/`restore` balance.

`wrappers.dfy` holds the `Option` type.

Notes on the code as written:

- `getGroupCoords` computes inverse(group)·object, the matrix `r` with
  `group · r = object`: apply the relative matrix, then the reference. The comment on line 38 names the
  product in the other order.
- `cropEnd` never removes the stage's `click tap` listener (line 204). Each
  session leaves one more behind, so a start followed by an end does not
  restore the listener set (`CropProperties.StartThenEnd`).
- `cropStart` destroys every transformer on the stage before its re-entry
  guard (lines 133-141). Calling it during a session is therefore not a
  no-op (`CropProperties.StartReentry`).

Host-supplied values are parameters:

- `Math.sqrt` is a parameter `root`, constrained by `IsRoot`.
- `CropSession.CropUpdateAt` models `cropUpdate` from two absolute
  matrices: the guide's and the image's, which Konva computes. It builds the
  stored placement with `Affine.GetGroupCoords`. The `atan2`-to-degrees
  conversion is a function parameter `degrees`, left uninterpreted.
- `CropUpdate` and `OpenSession` take that placement as a `Placement`
  value.
- The crop element's absolute matrix, which Konva computes, is the
  `cropMatrix` parameter of `SceneFunc.Draw`.

## Model

| member | source | states |
|---|---|---|
| Affine.GroupCoords | src/utils/konva-crop.js:38-50 | exists exactly when A·D − B·C ≠ 0, and then reference · `[G,H,I,J,K,L]` = object (apply the relative matrix, then the reference) |
| Affine.RelativeMatrixSolves | src/utils/konva-crop.js:41-50 | the matrix `n = [G,H,I,J,K,L]` built from the closed forms satisfies reference · n = object (apply `n`, then the reference) |
| Affine.LinearColumn | src/utils/konva-crop.js:43-46 | each linear column (G, H) and (I, J) solves the reference's 2×2 system for the object's column |
| Affine.TranslationColumn | src/utils/konva-crop.js:47-48 | (K, L) solves the reference's system for the object's translation minus the reference's |
| Affine.GroupCoordsUnique | src/utils/konva-crop.js:38-50 | `[G,H,I,J,K,L]` is the only matrix the reference composes to the object: inverse(reference)·object |
| Affine.GroupCoordsOfSelf | src/utils/konva-crop.js:38-50 | a matrix taken relative to itself gives the identity `[1,0,0,1,0,0]` |
| Affine.ComposeCancel | src/utils/konva-crop.js:38-50 | a matrix with non-zero determinant can be cancelled on the left, which is what makes the relative matrix unique |
| Affine.QrDecompose | src/utils/konva-crop.js:19-32 | translation passes through; scaleX > 0 with scaleX² = a² + b²; scaleX·scaleY = a·d − c·b; the rotation is the unit direction (a, b)/scaleX; no result exactly when a = b = 0 |
| Affine.DecomposeRecompose | src/utils/konva-crop.js:19-32 | rebuilding the matrix from rotation, scale and translation gives it back exactly when its columns are orthogonal (no shear) |
| Affine.RecomposeDecompose | src/utils/konva-crop.js:19-32 | a rotation with positive scaleX, any scaleY and a translation decompose back to themselves |
| Affine.DecomposeTranslated | src/utils/konva-crop.js:19-32 | two matrices with the same linear part decompose to the same rotation and scale; only x and y differ |
| Affine.DecomposeIdentity | src/utils/konva-crop.js:19-32 | the identity decomposes to no rotation, unit scale and no translation |
| Affine.GetGroupCoords | src/utils/konva-crop.js:34-54 | defined unless the reference is singular or the object's first column is zero; x and y are the relative translation; the components are the QR decomposition of the relative matrix, so they rebuild a matrix the reference carries onto the object exactly when the relative matrix has no shear |
| Affine.GetGroupCoordsOfSelf | src/utils/konva-crop.js:34-54 | a node relative to itself decomposes to rotation 0, scale 1 and position (0, 0) |
| Affine.GroupCoordsOfDrag | src/utils/konva-crop.js:34-54 | moving the object on screen by (dx, dy) leaves the relative linear part alone; the relative position moves by (dx, dy) brought back through the reference's linear part |
| CropSession.SetCropTransform | src/utils/konva-crop.js:65-79 | `false` deletes the crop element; any other value keeps or creates it, merges the given attributes over the old ones and forces offsetX = offsetY = 0; nothing else changes |
| CropSession.CropTransform | src/utils/konva-crop.js:85-91 | a truthy value is stored and nothing returned; any other value changes nothing and returns the getter's result |
| CropSession.Resize | src/utils/konva-crop.js:115-122 | scale becomes 1 and size becomes size·scale, so displayed size is unchanged; nothing else changes |
| CropSession.ApplyPlacement | src/utils/konva-crop.js:109-113 | the guide's placement is stored in the crop element with zero offsets, other crop attributes kept, and no other key appears |
| CropSession.CropUpdate | src/utils/konva-crop.js:109-113 | has an effect only during a session (without one the source throws); then it is exactly the stored placement of `ApplyPlacement` (zero offsets, other crop attributes kept) and changes nothing but the crop |
| CropSession.GuidePlacement | src/utils/konva-crop.js:109-111 | the placement `cropUpdate` stores is the guide's matrix decomposed in the image's frame, with the angle converted by `degrees`; none exactly where the decomposition has none |
| CropSession.CropUpdateAt | src/utils/konva-crop.js:109-113 | only during a session and for a non-degenerate pair of matrices; only the crop changes: it is `cropUpdate` applied to the guide's decomposed placement relative to the image, so x and y are the relative translation, rotation and scale come from the decomposition, offsets are zeroed and other crop attributes kept |
| CropSession.ResizeAndCropUpdate | src/utils/konva-crop.js:191-194 | width and height become size·scale and scale becomes 1, the rest of the image unchanged; the crop is exactly what the update alone would store, so the resize does not affect it; session, listeners, transformers and the id counter are untouched |
| CropSession.CropStart | src/utils/konva-crop.js:132-141 | every transformer is destroyed first; during a session nothing else happens; otherwise a session is opened |
| CropSession.OpenSession | src/utils/konva-crop.js:143-209 | a missing crop becomes the whole image; the crop holds only the placement attributes, the two offsets and the attributes it had before (or the whole-image ones); a fresh guide and two fresh transformers appear; the image is resized and its other attributes kept; the placement is stored with zero offsets and an existing crop's other attributes kept; the four session listeners and the stage listener are added |
| CropSession.CreateGuide | src/utils/konva-crop.js:143-184 | a missing crop becomes the whole image's size at the origin with zero rotation and zero offsets, an existing one is kept; the guide and its two transformers get fresh ids; image and listeners are unchanged |
| CropSession.CropEnd | src/utils/konva-crop.js:93-107 | no-op without a session; otherwise both transformers are destroyed, every registration of exactly the four listeners of lines 199-202 is removed, and crop, size and all other listeners stay |
| CropSession.CropReset | src/utils/konva-crop.js:124-130 | always ends with no session and no crop element; otherwise it is `cropEnd` followed by `setCropTransform(false)` |
| CropSession.OnStageClick | src/utils/konva-crop.js:204-208 | a click on the image or the current guide changes nothing; any other click ends the session |
| CropSession.EnableCropOnDblClick | src/utils/konva-crop.js:59-63 | adds one `dblclick` listener and changes nothing else |
| CropProperties.Fresh | src/utils/konva-crop.js:139-143 | a new image, for which the lines that read `cropImage` (line 139) and `_cropElement` (line 143) find both absent, satisfies the invariant and has no crop and no session |
| CropProperties.SetThenGet | src/utils/konva-crop.js:65-83 | after setting an object, the getter returns every given attribute and zero offsets; after setting `false` it returns nothing |
| CropProperties.CropTransformFalseKeepsCrop | src/utils/konva-crop.js:85-91 | `cropTransform(false)` is a getter and does not clear the crop, unlike `setCropTransform(false)` |
| CropProperties.ResizeIdempotent | src/utils/konva-crop.js:115-122 | resizing twice is resizing once |
| CropProperties.StartReentry | src/utils/konva-crop.js:132-141 | a second start creates no second guide but clears the transformers, so it differs from a single start |
| CropProperties.EndIdempotent | src/utils/konva-crop.js:93-107 | ending twice is ending once |
| CropProperties.ResetAlwaysClears | src/utils/konva-crop.js:124-130 | from any state a reset leaves no session and no crop, and is idempotent |
| CropProperties.StaleStageClickHarmless | src/utils/konva-crop.js:204-208 | after the session has ended, the leftover stage listener changes nothing |
| CropProperties.StartThenEnd | src/utils/konva-crop.js:93-107 | start then end leaves the old listeners plus the stage `click tap` listener, which is never the old set; no transformer survives; the crop survives |
| CropProperties.StartKeepsValid | src/utils/konva-crop.js:132-210 | `cropStart` keeps the invariant |
| CropProperties.EndKeepsValid | src/utils/konva-crop.js:93-107 | `cropEnd` keeps the invariant |
| CropProperties.AttrsKeepValid | src/utils/konva-crop.js:65-122 | setting, reading and resizing keep the invariant |
| CropProperties.UpdateKeepsValid | src/utils/konva-crop.js:109-113 | the guide's update handlers keep the invariant |
| CropProperties.ResetKeepsValid | src/utils/konva-crop.js:124-130 | `cropReset` keeps the invariant |
| CropProperties.ClickKeepsValid | src/utils/konva-crop.js:204-208 | the outside-click handler keeps the invariant |
| CropProperties.DblClickKeepsValid | src/utils/konva-crop.js:59-63 | the double-click wiring keeps the invariant |
| CropProperties.GetterAcrossLifecycle | src/utils/konva-crop.js:81-83 | the getter sees a crop after every start that opened a session or found one, none after a reset, and the same crop across an end |
| CropProperties.UpdateAtSelf | src/utils/konva-crop.js:109-113 | a guide exactly on the image stores position (0, 0), unit scale and the angle of the direction (1, 0) |
| CropProperties.UpdateAfterDrag | src/utils/konva-crop.js:109-113 | dragging the guide leaves the stored rotation and scale unchanged |
| CropProperties.DragPlacements | src/utils/konva-crop.js:34-54 | the placements before and after a drag differ only in x and y |
| SceneFunc.Source | src/utils/konva-crop.js:239-255 | the source sub-rectangle (cropX, cropY, cropWidth, cropHeight) is used exactly when cropWidth and cropHeight are both non-zero |
| SceneFunc.Dest | src/utils/konva-crop.js:213-233 | the destination is at the origin, with the crop element's size when there is one and the image's size otherwise |
| SceneFunc.DrawFrame | src/utils/konva-crop.js:220-264 | every paint clips to the image's own box, fills and strokes only when the shape has a fill or a stroke, and ends with `strokeShape` and the outer `restore` |
| SceneFunc.DrawBalanced | src/utils/konva-crop.js:212-265 | `save` and `restore` balance on every path |
| SceneFunc.DrawImageCall | src/utils/konva-crop.js:229-257 | `drawImage` is called exactly once when there is an image, never otherwise, with the rectangles above |
| SceneFunc.CroppedImageDraw | src/utils/konva-crop.js:229-257 | the image block makes exactly one `drawImage` call, with the chosen source and destination |
| SceneFunc.DrawTransformCall | src/utils/konva-crop.js:229-237 | the crop element's matrix is applied exactly when an image is drawn through a crop element |
| SceneFunc.CroppedImageTransform | src/utils/konva-crop.js:230-237 | the crop element's matrix is applied once when the crop element exists and never otherwise |
| SceneFunc.CroppedImageBracketed | src/utils/konva-crop.js:229-262 | with a crop element the drawing sits between `save` followed by the crop matrix and the `restore` that undoes it; without one it is the bare `drawImage`; either way the save depth is unchanged |
| SceneFunc.ResetDrawsWholeImage | src/utils/konva-crop.js:124-130 | after a reset the image is drawn untransformed into its own box |

## Left out

- Rotation angle: `Math.atan2` and the radians-to-degrees conversion (lines 20 and 26) are transcendental. The rotation is kept as the unit direction (cos θ, sin θ). The state machine receives the angle in degrees inside a `Placement`.
- Affine.QrDecompose: `Math.sqrt` is the parameter `root`, constrained to be the non-negative square root, because a real square root cannot be constructed here.
- IEEE rounding: matrices are exact reals. Where the source divides by zero and produces Infinity or NaN, the model returns None. That covers `getGroupCoords` with a singular reference, and `qrDecompose` with a = b = 0, where scaleY is 0/0.
- The guide's initial placement (lines 152-156 and 167) goes onto the guide, which is represented only by its id. It depends on Konva's absolute transforms of the layer, the image and the crop element, and is not modelled.
- CropSession.OpenSession: its `Placement` parameter is what `cropUpdate` computes at line 197, after the resize at line 196. That is `GuidePlacement` of the guide's and the image's absolute matrices at that moment. Konva computes those matrices, so the placement arrives as a value.
- CropProperties.UpdateAfterDrag: the stored position's shift is stated for the relative matrices in `Affine.GroupCoordsOfDrag`, not for the stored crop attributes.
- Konva itself is represented only by state fields. This covers `getAbsoluteTransform`, `Transformer` construction and `attachTo`, `layer.add`/`remove`, `getStage().find`, event dispatch and canvas drawing. Destroying a transformer removes its id from `handles`. The guide's presence on the layer is the presence of the session.
- `getLayer().draw()` (lines 105, 112, 129, 209) is left out. So is the failure of `getStage()` (lines 133, 204) and `getLayer()` (lines 105, 112, 129, 152) on an image that is not on a stage. They return null there and the method throws partway through. For example, `cropReset` would already have deleted the crop when it throws at line 129. The model assumes the image is attached, so every call completes.
- CropSession.GetCropTransform: the source returns Konva's live attribute object (line 82). A caller that edits it changes the crop directly and bypasses the offset reset of lines 74-77. The model returns a copy.
- `console.log` on line 78 is left out.
- CropSession.CropUpdate: when called with no session, the source throws a TypeError because `cropImage` is undefined. The model returns None instead of modelling the exception.
- CropSession.SetCropTransform: arguments other than `false`, `undefined` and objects (numbers, strings, `true`) are not modelled. `setAttrs(undefined)` is taken to change nothing.
- Attributes are modelled as numbers only. The guide's stroke, image, opacity and draggable flag (lines 159-165) are not modelled.
- `vue.config.js` is build and dev-server configuration and is not part of this model.
