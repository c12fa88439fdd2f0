/** The plugin's replacement `_sceneFunc` for `Konva.Image` (lines 212-265),
    as the list of canvas-context calls it makes. Which rectangles reach
    `drawImage`, and whether `save` and `restore` pair up, is decided here;
    the drawing itself is Konva's. */
module SceneFunc {
  import opened Wrappers
  import opened Affine
  import opened CropSession

  datatype Box = Box(x: real, y: real, width: real, height: real)

  /** One call on the canvas context. `DrawImage(None, d)` is the five-argument
      form (the whole image into `d`); `DrawImage(Some(src), d)` the
      nine-argument form (the sub-rectangle `src` into `d`). */
  datatype Op =
    | Save
    | Restore
    | BeginPath
    | Rect(box: Box)
    | ClosePath
    | Clip
    | FillStrokeShape
    | TransformBy(m: Matrix)  // `context.transform`: multiplies onto the current matrix
    | DrawImage(source: Option<Box>, dest: Box)
    | StrokeShape

  /** A Konva attribute getter with its default: `width()` and `height()` of
      a shape whose attribute was never set read 0. */
  function AttrOr(a: Attrs, key: string, default: real): real {
    if key in a then a[key] else default
  }

  /** The calls of `_sceneFunc` for image `n`, crop element `crop` and the
      crop element's absolute matrix `cropMatrix` (computed by Konva from its
      attributes). */
  function Draw(n: ImageNode, crop: Option<Attrs>, cropMatrix: Matrix): seq<Op> {
    var clip := [Save, BeginPath, Rect(Box(0.0, 0.0, n.width, n.height)), ClosePath, Clip];
    var fill := if n.hasFill || n.hasStroke then [FillStrokeShape] else [];
    var image := if n.hasImage then DrawCroppedImage(n, crop, cropMatrix) else [];
    clip + fill + image + [StrokeShape, Restore]
  }

  /** Lines 230-261: enter the crop frame if there is a crop element, draw,
      and leave it again. */
  function DrawCroppedImage(n: ImageNode, crop: Option<Attrs>, cropMatrix: Matrix): seq<Op> {
    var enter := if crop.Some? then [Save, TransformBy(cropMatrix)] else [];
    var leave := if crop.Some? then [Restore] else [];
    enter + [DrawImage(Source(n), Dest(n, crop))] + leave
  }

  /** Lines 239-255: the source sub-rectangle, used only when both
      `cropWidth` and `cropHeight` are truthy (non-zero). */
  function Source(n: ImageNode): (r: Option<Box>)
    ensures r.Some? <==> n.cropWidth != 0.0 && n.cropHeight != 0.0
    ensures r.Some? ==> r.value == Box(n.cropX, n.cropY, n.cropWidth, n.cropHeight)
  {
    if n.cropWidth != 0.0 && n.cropHeight != 0.0 then Some(Box(n.cropX, n.cropY, n.cropWidth, n.cropHeight))
    else None
  }

  /** Lines 213-214 and 232-233: the destination is the crop element's size
      when there is one, the image's otherwise, always at the origin. */
  function Dest(n: ImageNode, crop: Option<Attrs>): (r: Box)
    ensures r.x == 0.0 && r.y == 0.0
    ensures crop.None? ==> r.width == n.width && r.height == n.height
    ensures crop.Some? ==> r.width == AttrOr(crop.value, "width", 0.0) && r.height == AttrOr(crop.value, "height", 0.0)
  {
    match crop
    case None => Box(0.0, 0.0, n.width, n.height)
    case Some(c) => Box(0.0, 0.0, AttrOr(c, "width", 0.0), AttrOr(c, "height", 0.0))
  }

  /** The two kinds of call whose occurrences matter: `drawImage` and the
      crop element's `transform`. */
  datatype Kind = DrawKind | TransformKind

  predicate Is(o: Op, kind: Kind) {
    match kind
    case DrawKind => o.DrawImage?
    case TransformKind => o.TransformBy?
  }

  /** The calls of `ops` of the given kind, in order. */
  function Select(ops: seq<Op>, kind: Kind): seq<Op>
  {
    if |ops| == 0 then []
    else (if Is(ops[0], kind) then [ops[0]] else []) + Select(ops[1..], kind)
  }

  /** `Select` keeps exactly the calls of the given kind. */
  lemma {:induction false} SelectMembers(ops: seq<Op>, kind: Kind, o: Op)
    ensures o in Select(ops, kind) <==> o in ops && Is(o, kind)
  {
    if |ops| > 0 {
      SelectMembers(ops[1..], kind, o);
      assert ops == [ops[0]] + ops[1..];
    }
  }

  lemma {:induction false} SelectAppend(a: seq<Op>, b: seq<Op>, kind: Kind)
    ensures Select(a + b, kind) == Select(a, kind) + Select(b, kind)
  {
    if |a| == 0 {
      assert a + b == b;
    } else {
      var head := if Is(a[0], kind) then [a[0]] else [];
      assert (a + b)[0] == a[0];
      assert (a + b)[1..] == a[1..] + b;
      SelectAppend(a[1..], b, kind);
      calc {
        Select(a + b, kind);
        head + Select(a[1..] + b, kind);
        head + (Select(a[1..], kind) + Select(b, kind));
        (head + Select(a[1..], kind)) + Select(b, kind);
        Select(a, kind) + Select(b, kind);
      }
    }
  }

  /** The number of `save` calls still open after `ops`, starting with `open`
      of them; None when a `restore` finds nothing to restore. */
  function Unwind(ops: seq<Op>, open: nat): Option<nat> {
    if |ops| == 0 then Some(open)
    else
      match ops[0]
      case Save => Unwind(ops[1..], open + 1)
      case Restore => if open == 0 then None else Unwind(ops[1..], open - 1)
      case _ => Unwind(ops[1..], open)
  }

  /** Every `restore` has an earlier `save` and every `save` a later `restore`. */
  predicate Balanced(ops: seq<Op>) {
    Unwind(ops, 0) == Some(0)
  }

  lemma {:induction false} UnwindAppend(a: seq<Op>, b: seq<Op>, open: nat)
    ensures Unwind(a + b, open) == match Unwind(a, open) case None => None case Some(m) => Unwind(b, m)
  {
    if |a| == 0 {
      assert a + b == b;
    } else {
      assert (a + b)[0] == a[0];
      assert (a + b)[1..] == a[1..] + b;
      match a[0]
      case Save => UnwindAppend(a[1..], b, open + 1);
      case Restore => if open > 0 { UnwindAppend(a[1..], b, open - 1); }
      case _ => UnwindAppend(a[1..], b, open);
    }
  }

  /** `save` and `restore` balance on every path through `_sceneFunc`. */
  lemma DrawBalanced(n: ImageNode, crop: Option<Attrs>, cropMatrix: Matrix)
    ensures Balanced(Draw(n, crop, cropMatrix))
  {
    var clip := [Save, BeginPath, Rect(Box(0.0, 0.0, n.width, n.height)), ClosePath, Clip];
    var fill := if n.hasFill || n.hasStroke then [FillStrokeShape] else [];
    var image := if n.hasImage then DrawCroppedImage(n, crop, cropMatrix) else [];
    var close := [StrokeShape, Restore];
    UnwindAppend(clip + fill + image, close, 0);
    UnwindAppend(clip + fill, image, 0);
    UnwindAppend(clip, fill, 0);
    assert clip == [Save] + clip[1..];
    UnwindAppend([Save], clip[1..], 0);
    UnwindStep(Save, 0);
    UnwindNeutral(clip[1..], 1);
    UnwindNeutral(fill, 1);
    if n.hasImage {
      var enter := if crop.Some? then [Save, TransformBy(cropMatrix)] else [];
      var leave := if crop.Some? then [Restore] else [];
      var draw := [DrawImage(Source(n), Dest(n, crop))];
      UnwindAppend(enter + draw, leave, 1);
      UnwindAppend(enter, draw, 1);
      if crop.Some? {
        assert enter == [Save] + [TransformBy(cropMatrix)];
        UnwindAppend([Save], [TransformBy(cropMatrix)], 1);
        UnwindStep(Save, 1);
        UnwindNeutral([TransformBy(cropMatrix)], 2);
        UnwindNeutral(draw, 2);
        UnwindStep(Restore, 2);
      } else {
        UnwindNeutral(enter, 1);
        UnwindNeutral(draw, 1);
        UnwindNeutral(leave, 1);
      }
    } else {
      UnwindNeutral(image, 1);
    }
    assert close == [StrokeShape] + [Restore];
    UnwindAppend([StrokeShape], [Restore], 1);
    UnwindNeutral([StrokeShape], 1);
    UnwindStep(Restore, 1);
  }

  lemma UnwindStep(o: Op, open: nat)
    ensures Unwind([o], open) == match o
      case Save => Some(open + 1)
      case Restore => if open == 0 then None else Some(open - 1)
      case _ => Some(open)
  {
    assert [o][1..] == [];
  }

  /** Calls other than `save` and `restore` leave the open count alone. */
  lemma {:induction false} UnwindNeutral(ops: seq<Op>, open: nat)
    requires forall k :: 0 <= k < |ops| ==> !ops[k].Save? && !ops[k].Restore?
    ensures Unwind(ops, open) == Some(open)
  {
    if |ops| > 0 {
      UnwindNeutral(ops[1..], open);
    }
  }

  lemma SelectStep(o: Op, kind: Kind)
    ensures Select([o], kind) == if Is(o, kind) then [o] else []
  {
    assert [o][1..] == [];
  }

  /** Nothing is selected from calls of another kind. */
  lemma {:induction false} SelectNone(ops: seq<Op>, kind: Kind)
    requires forall k :: 0 <= k < |ops| ==> !Is(ops[k], kind)
    ensures Select(ops, kind) == []
  {
    if |ops| > 0 {
      SelectNone(ops[1..], kind);
    }
  }

  /** Outside the image block, `_sceneFunc` makes no call of either kind. */
  lemma SelectDraw(n: ImageNode, crop: Option<Attrs>, cropMatrix: Matrix, kind: Kind)
    ensures Select(Draw(n, crop, cropMatrix), kind)
         == if n.hasImage then Select(DrawCroppedImage(n, crop, cropMatrix), kind) else []
  {
    var clip := [Save, BeginPath, Rect(Box(0.0, 0.0, n.width, n.height)), ClosePath, Clip];
    var fill := if n.hasFill || n.hasStroke then [FillStrokeShape] else [];
    var image := if n.hasImage then DrawCroppedImage(n, crop, cropMatrix) else [];
    var close := [StrokeShape, Restore];
    assert Draw(n, crop, cropMatrix) == clip + fill + image + close;
    assert Select(clip, kind) == [] by { SelectNone(clip, kind); }
    assert Select(fill, kind) == [] by { SelectNone(fill, kind); }
    assert Select(close, kind) == [] by { SelectNone(close, kind); }
    assert !n.hasImage ==> Select(image, kind) == [] by {
      if !n.hasImage { SelectNone(image, kind); }
    }
    SelectAppend(clip, fill, kind);
    SelectAppend(clip + fill, image, kind);
    SelectAppend(clip + fill + image, close, kind);
  }

  /** `_sceneFunc` draws the image exactly once when there is one, never
      otherwise, with the source and destination rectangles chosen above. */
  lemma DrawImageCall(n: ImageNode, crop: Option<Attrs>, cropMatrix: Matrix)
    ensures Select(Draw(n, crop, cropMatrix), DrawKind)
         == if n.hasImage then [DrawImage(Source(n), Dest(n, crop))] else []
  {
    SelectDraw(n, crop, cropMatrix, DrawKind);
    if n.hasImage {
      CroppedImageDraw(n, crop, cropMatrix);
    }
  }

  /** Lines 229-262: the image block makes exactly one `drawImage` call. */
  lemma CroppedImageDraw(n: ImageNode, crop: Option<Attrs>, cropMatrix: Matrix)
    ensures Select(DrawCroppedImage(n, crop, cropMatrix), DrawKind) == [DrawImage(Source(n), Dest(n, crop))]
  {
    var enter := if crop.Some? then [Save, TransformBy(cropMatrix)] else [];
    var leave := if crop.Some? then [Restore] else [];
    var draw := [DrawImage(Source(n), Dest(n, crop))];
    SelectAppend(enter + draw, leave, DrawKind);
    SelectAppend(enter, draw, DrawKind);
    SelectNone(enter, DrawKind);
    SelectNone(leave, DrawKind);
    SelectStep(draw[0], DrawKind);
  }

  /** The crop element's matrix is applied exactly when an image is drawn
      through a crop element. */
  lemma DrawTransformCall(n: ImageNode, crop: Option<Attrs>, cropMatrix: Matrix)
    ensures Select(Draw(n, crop, cropMatrix), TransformKind)
         == if n.hasImage && crop.Some? then [TransformBy(cropMatrix)] else []
  {
    SelectDraw(n, crop, cropMatrix, TransformKind);
    if n.hasImage {
      CroppedImageTransform(n, crop, cropMatrix);
    }
  }

  /** Lines 230-237: the crop element's matrix is applied once when there is
      a crop element and never otherwise; that it sits inside its own
      `save`/`restore` pair is `CroppedImageBracketed`. */
  lemma CroppedImageTransform(n: ImageNode, crop: Option<Attrs>, cropMatrix: Matrix)
    ensures Select(DrawCroppedImage(n, crop, cropMatrix), TransformKind)
         == if crop.Some? then [TransformBy(cropMatrix)] else []
  {
    var enter := if crop.Some? then [Save, TransformBy(cropMatrix)] else [];
    var leave := if crop.Some? then [Restore] else [];
    var draw := [DrawImage(Source(n), Dest(n, crop))];
    SelectAppend(enter + draw, leave, TransformKind);
    SelectAppend(enter, draw, TransformKind);
    SelectNone(draw, TransformKind);
    SelectNone(leave, TransformKind);
    if crop.Some? {
      assert enter == [Save] + [TransformBy(cropMatrix)];
      SelectAppend([Save], [TransformBy(cropMatrix)], TransformKind);
      SelectStep(Save, TransformKind);
      SelectStep(TransformBy(cropMatrix), TransformKind);
    } else {
      SelectNone(enter, TransformKind);
    }
  }

  /** After `cropReset`, painting draws the image untransformed into the
      image's own box, whatever the crop was before. */
  lemma ResetDrawsWholeImage(s: Scene, cropMatrix: Matrix)
    requires s.node.hasImage
    ensures var r := CropReset(s);
      && Select(Draw(r.node, r.crop, cropMatrix), TransformKind) == []
      && Select(Draw(r.node, r.crop, cropMatrix), DrawKind)
         == [DrawImage(Source(s.node), Box(0.0, 0.0, s.node.width, s.node.height))]
  {
    var r := CropReset(s);
    DrawTransformCall(r.node, r.crop, cropMatrix);
    DrawImageCall(r.node, r.crop, cropMatrix);
  }

  /** Lines 230-261: with a crop element the image is drawn between a `save`
      that precedes the crop matrix and the `restore` that undoes it, so the
      matrix is gone again before `strokeShape` (line 263); in every case the
      block leaves the save depth where it found it. */
  lemma CroppedImageBracketed(n: ImageNode, crop: Option<Attrs>, cropMatrix: Matrix)
    ensures var ops := DrawCroppedImage(n, crop, cropMatrix);
      && (crop.Some? ==> |ops| == 4 && ops[..2] == [Save, TransformBy(cropMatrix)] && ops[3] == Restore)
      && (crop.None? ==> ops == [DrawImage(Source(n), Dest(n, crop))])
      && forall k: nat :: Unwind(ops, k) == Some(k)
  {
    var ops := DrawCroppedImage(n, crop, cropMatrix);
    var draw := [DrawImage(Source(n), Dest(n, crop))];
    forall k: nat
      ensures Unwind(ops, k) == Some(k)
    {
      if crop.Some? {
        assert ops == [Save] + ([TransformBy(cropMatrix)] + draw + [Restore]);
        UnwindAppend([Save], [TransformBy(cropMatrix)] + draw + [Restore], k);
        UnwindStep(Save, k);
        UnwindAppend([TransformBy(cropMatrix)] + draw, [Restore], k + 1);
        UnwindNeutral([TransformBy(cropMatrix)] + draw, k + 1);
        UnwindStep(Restore, k + 1);
      } else {
        UnwindNeutral(ops, k);
      }
    }
  }

  /** Lines 220-227 and 263-264: every paint clips to the image's own box
      (not the crop element's), fills and strokes the shape only when it has
      a fill or a stroke, and ends with `strokeShape` and the outer
      `restore`. */
  lemma DrawFrame(n: ImageNode, crop: Option<Attrs>, cropMatrix: Matrix)
    ensures var ops := Draw(n, crop, cropMatrix);
      && |ops| >= 7
      && ops[..5] == [Save, BeginPath, Rect(Box(0.0, 0.0, n.width, n.height)), ClosePath, Clip]
      && ops[|ops| - 2..] == [StrokeShape, Restore]
      && (FillStrokeShape in ops <==> n.hasFill || n.hasStroke)
  {
    var clip := [Save, BeginPath, Rect(Box(0.0, 0.0, n.width, n.height)), ClosePath, Clip];
    var fill := if n.hasFill || n.hasStroke then [FillStrokeShape] else [];
    var image := if n.hasImage then DrawCroppedImage(n, crop, cropMatrix) else [];
    var ops := Draw(n, crop, cropMatrix);
    assert ops == clip + fill + image + [StrokeShape, Restore];
    if n.hasImage {
      CroppedImageBracketed(n, crop, cropMatrix);
    }
    assert FillStrokeShape !in image;
    if n.hasFill || n.hasStroke {
      assert ops[5] == FillStrokeShape;
    }
  }
}
