/** The crop-session state of one `Konva.Image` with the cropping plugin:
    the optional crop element (`_cropElement`), the optional session (the
    guide image `cropImage` with its two transformers), the image's size and
    scale, the transformers alive on the stage, and the listener
    registrations the plugin makes.

    Konva itself (transform objects, drawing, event dispatch) is not modelled:
    whatever the plugin reads back from Konva (the guide's placement relative
    to the image) arrives as a parameter. */
module CropSession {
  import opened Wrappers
  import opened Affine

  /** The attributes of a Konva node, as numbers. */
  type Attrs = map<string, real>

  /** The argument of `setCropTransform` and `cropTransform`: the literal
      `false`, `undefined` (the getter call `cropTransform()`), or an object
      of attributes. Objects are truthy even when empty. */
  datatype Arg = False | Undefined | Object(attrs: Attrs)

  predicate Truthy(v: Arg) {
    v.Object?
  }

  /** The image's own attributes the plugin reads. */
  datatype ImageNode = ImageNode(
    width: real, height: real, scaleX: real, scaleY: real,
    cropX: real, cropY: real, cropWidth: real, cropHeight: real,
    hasImage: bool, hasFill: bool, hasStroke: bool)

  /** Who a listener is registered on: the image, a guide image (by id), the
      stage, or some other shape of the host application. */
  datatype Target = Image | Guide(id: nat) | Stage | Shape(id: nat)

  datatype Event = DblClick | DragMove | Transform | Click | Tap

  /** The plugin's handlers (`cropUpdateBinded`, `resizAndCropUpdateBinded`,
      the stage's click-outside arrow function, the double-click starter)
      and any handler of the host application. */
  datatype Handler = OnUpdate | OnResizeUpdate | OnOutsideClick | OnDblClick | Host(id: nat)

  datatype Listener = Listener(target: Target, event: Event, handler: Handler)

  /** An active session: the guide image and the ids of its two transformers
      (`cropImageTransformer` on the guide, `transformer` on the image). */
  datatype Session = Session(guide: nat, guideHandles: nat, nodeHandles: nat)

  /** `handles` are the transformers alive on the stage; `nextId` is where
      fresh ids for guides and transformers start. The guide is on the layer
      exactly while the session exists. */
  datatype Scene = Scene(
    node: ImageNode,
    crop: Option<Attrs>,
    session: Option<Session>,
    handles: set<nat>,
    listeners: multiset<Listener>,
    nextId: nat)

  /** What `getGroupCoords(cropImage, this)` returns: the guide's position,
      rotation in degrees and scale in the image's frame. */
  datatype Placement = Placement(x: real, y: real, rotation: real, scaleX: real, scaleY: real)

  const OffsetX := "offsetX"
  const OffsetY := "offsetY"

  function PlacementAttrs(p: Placement): Attrs {
    map["x" := p.x, "y" := p.y, "rotation" := p.rotation, "scaleX" := p.scaleX, "scaleY" := p.scaleY]
  }

  /** The crop `cropStart` creates when there is none: the whole image. */
  function InitialCrop(n: ImageNode): Attrs {
    map["x" := 0.0, "y" := 0.0, "width" := n.width, "height" := n.height, "rotation" := 0.0]
  }

  /** The two guide listeners of lines 199-200. */
  function GuideListeners(g: nat): multiset<Listener> {
    multiset{Listener(Guide(g), DragMove, OnUpdate), Listener(Guide(g), Transform, OnUpdate)}
  }

  /** The two image listeners of lines 201-202. */
  const ImageListeners := multiset{Listener(Image, DragMove, OnUpdate), Listener(Image, Transform, OnResizeUpdate)}

  /** The stage listener of line 204: one handler for `click` and for `tap`. */
  const StageListeners := multiset{Listener(Stage, Click, OnOutsideClick), Listener(Stage, Tap, OnOutsideClick)}

  /** The four listeners a session owns and `cropEnd` removes. */
  function SessionListeners(g: nat): multiset<Listener> {
    GuideListeners(g) + ImageListeners
  }

  /** The plugin's bookkeeping is consistent: ids are below `nextId`, the
      only listeners on a guide are the live guide's two update listeners,
      and the image carries the session listeners only during a session. */
  ghost predicate Valid(s: Scene) {
    && (forall h :: h in s.handles ==> h < s.nextId)
    && (forall l :: l in s.listeners && l.target.Guide? ==>
          && s.session.Some? && l.target.id == s.session.value.guide
          && l.handler == OnUpdate && (l.event == DragMove || l.event == Transform))
    && match s.session
       case None =>
         && Listener(Image, DragMove, OnUpdate) !in s.listeners
         && Listener(Image, Transform, OnResizeUpdate) !in s.listeners
       case Some(g) =>
         && g.guide < s.nextId && g.guideHandles < s.nextId && g.nodeHandles < s.nextId
         && g.guideHandles != g.nodeHandles
  }

  /** `setCropTransform` (lines 65-79): `false` deletes the crop element;
      anything else creates it if missing, merges the attributes and forces
      both offsets to 0. */
  function SetCropTransform(s: Scene, v: Arg): (r: Scene)
    ensures r.(crop := s.crop) == s
    ensures v == False <==> r.crop.None?
    ensures r.crop.Some? ==> forall k :: k in r.crop.value <==>
      (k == OffsetX || k == OffsetY || (v.Object? && k in v.attrs) || (s.crop.Some? && k in s.crop.value))
    ensures r.crop.Some? ==> r.crop.value[OffsetX] == 0.0 && r.crop.value[OffsetY] == 0.0
    ensures r.crop.Some? ==> forall k :: k in r.crop.value && k != OffsetX && k != OffsetY ==>
      r.crop.value[k] == (if v.Object? && k in v.attrs then v.attrs[k] else s.crop.value[k])
  {
    if v == False then s.(crop := None)
    else
      var base := s.crop.GetOr(map[]);
      var merged := if v.Object? then base + v.attrs else base;
      s.(crop := Some(merged[OffsetX := 0.0][OffsetY := 0.0]))
  }

  /** `getCropTransform` (lines 81-83): the crop element's attributes, or a
      falsy value when there is none. */
  function GetCropTransform(s: Scene): Option<Attrs> {
    s.crop
  }

  /** `cropTransform` (lines 85-91): a truthy value is set (and nothing is
      returned); anything else makes it a getter that changes nothing. */
  function CropTransform(s: Scene, v: Arg): (r: (Scene, Option<Attrs>))
    ensures Truthy(v) ==> r.1.None? && r.0 == SetCropTransform(s, v)
    ensures Truthy(v) ==> forall k :: k in v.attrs && k != OffsetX && k != OffsetY ==>
      k in r.0.crop.value && r.0.crop.value[k] == v.attrs[k]
    ensures !Truthy(v) ==> r.0 == s && r.1 == GetCropTransform(s)
    ensures r.0.(crop := s.crop) == s
  {
    if Truthy(v) then (SetCropTransform(s, v), None) else (s, GetCropTransform(s))
  }

  /** `resize` (lines 115-122): folds the scale into the size. */
  function Resize(s: Scene): (r: Scene)
    ensures r.node.scaleX == 1.0 && r.node.scaleY == 1.0
    ensures r.node.width * r.node.scaleX == s.node.width * s.node.scaleX
    ensures r.node.height * r.node.scaleY == s.node.height * s.node.scaleY
    ensures r.(node := s.node) == s
    ensures r.node.(width := s.node.width, height := s.node.height, scaleX := s.node.scaleX, scaleY := s.node.scaleY) == s.node
  {
    var n := s.node;
    s.(node := n.(scaleX := 1.0, scaleY := 1.0, width := n.width * n.scaleX, height := n.height * n.scaleY))
  }

  /** The effect of `cropUpdate` (lines 109-113) once the guide's placement
      is known: it is stored through `cropTransform`. */
  function ApplyPlacement(s: Scene, p: Placement): (r: Scene)
    ensures r.(crop := s.crop) == s
    ensures r.crop.Some?
    ensures forall k :: k in PlacementAttrs(p) ==> k in r.crop.value && r.crop.value[k] == PlacementAttrs(p)[k]
    ensures OffsetX in r.crop.value && r.crop.value[OffsetX] == 0.0
    ensures OffsetY in r.crop.value && r.crop.value[OffsetY] == 0.0
    ensures forall k :: s.crop.Some? && k in s.crop.value && k !in PlacementAttrs(p) && k != OffsetX && k != OffsetY ==>
      k in r.crop.value && r.crop.value[k] == s.crop.value[k]
    ensures forall k :: k in r.crop.value ==>
      || k in PlacementAttrs(p) || k == OffsetX || k == OffsetY
      || (s.crop.Some? && k in s.crop.value)
  {
    CropTransform(s, Object(PlacementAttrs(p))).0
  }

  /** `cropUpdate` (lines 109-113), the handler of guide drags and
      transforms. Without a session `cropImage` is undefined and the source
      throws a TypeError: None. */
  function CropUpdate(s: Scene, p: Placement): (r: Option<Scene>)
    ensures r.Some? <==> s.session.Some?
    ensures r.Some? ==> r.value.(crop := s.crop) == s && r.value.crop.Some?
    ensures r.Some? ==> forall k :: k in PlacementAttrs(p) ==> k in r.value.crop.value && r.value.crop.value[k] == PlacementAttrs(p)[k]
    ensures r.Some? ==> r.value == ApplyPlacement(s, p)
  {
    if s.session.None? then None else Some(ApplyPlacement(s, p))
  }

  /** What `getGroupCoords(this.cropImage, this)` hands to `cropTransform`
      (lines 110-111): the guide's absolute matrix `guide` decomposed in the
      frame of the image's absolute matrix `image`. `root` is the square
      root of line 22, and `degrees` is the `atan2`-to-degrees conversion of
      lines 20 and 26, left uninterpreted. */
  function GuidePlacement(guide: Matrix, image: Matrix, root: real, degrees: Direction -> real): (r: Option<Placement>)
    requires RootOfRelative(guide, image, root)
    ensures r.None? <==> Det(image) == 0.0 || (guide.a == 0.0 && guide.b == 0.0)
    ensures r.Some? ==> GetGroupCoords(guide, image, root).Some?
    ensures r.Some? ==> var c := GetGroupCoords(guide, image, root).value;
      r.value == Placement(c.x, c.y, degrees(c.rotation), c.scaleX, c.scaleY)
  {
    match GetGroupCoords(guide, image, root)
    case None => None
    case Some(c) => Some(Placement(c.x, c.y, degrees(c.rotation), c.scaleX, c.scaleY))
  }

  /** `cropUpdate` (lines 109-113) from the two absolute matrices: the
      guide's position relative to the image becomes the crop's x and y.
      None without a session (the source throws) and where the source would
      store an infinity or NaN. */
  function CropUpdateAt(s: Scene, guide: Matrix, image: Matrix, root: real, degrees: Direction -> real): (r: Option<Scene>)
    requires RootOfRelative(guide, image, root)
    ensures r.Some? <==> s.session.Some? && Det(image) != 0.0 && !(guide.a == 0.0 && guide.b == 0.0)
    ensures r.Some? ==> r.value.(crop := s.crop) == s && r.value.crop.Some?
    ensures r.Some? ==>
      && GroupCoords(guide, image).Some?
      && "x" in r.value.crop.value && r.value.crop.value["x"] == GroupCoords(guide, image).value.e
      && "y" in r.value.crop.value && r.value.crop.value["y"] == GroupCoords(guide, image).value.f
    ensures r.Some? ==>
      && GuidePlacement(guide, image, root, degrees).Some?
      && r == CropUpdate(s, GuidePlacement(guide, image, root, degrees).value)
  {
    match GuidePlacement(guide, image, root, degrees)
    case None => None
    case Some(p) => CropUpdate(s, p)
  }

  /** The image's `transform` handler (lines 191-194): resize, then update. */
  function ResizeAndCropUpdate(s: Scene, p: Placement): (r: Option<Scene>)
    ensures r.Some? <==> s.session.Some?
    ensures r.Some? ==> r.value.node.scaleX == 1.0 && r.value.node.scaleY == 1.0
    ensures r.Some? ==> r.value.node.width == s.node.width * s.node.scaleX
    ensures r.Some? ==> r.value.node.height == s.node.height * s.node.scaleY
    ensures r.Some? ==> r.value.node.(width := s.node.width, height := s.node.height, scaleX := s.node.scaleX, scaleY := s.node.scaleY) == s.node
    ensures r.Some? ==> r.value.session == s.session && r.value.listeners == s.listeners && r.value.handles == s.handles
    ensures r.Some? ==> r.value.crop.Some? && forall k :: k in PlacementAttrs(p) ==>
      k in r.value.crop.value && r.value.crop.value[k] == PlacementAttrs(p)[k]
    ensures r.Some? ==> r.value.nextId == s.nextId && r.value.crop == ApplyPlacement(s, p).crop
  {
    CropUpdate(Resize(s), p)
  }

  /** `cropStart` (lines 132-210). Every transformer on the stage is
      destroyed first, even when a session is already running, and only then
      does the re-entry guard return. */
  function CropStart(s: Scene, p: Placement): (r: Scene)
    ensures s.session.Some? ==> r == s.(handles := {})
    ensures s.session.None? ==> r == OpenSession(s.(handles := {}), p)
    ensures r.session.Some?
  {
    var cleared := s.(handles := {});
    if cleared.session.Some? then cleared else OpenSession(cleared, p)
  }

  /** The part of `cropStart` after the guard (lines 143-209): a missing crop
      becomes the whole image, a guide and two fresh transformers are
      created, the image is resized, the guide's placement is stored, and six
      listeners are added. */
  function OpenSession(s: Scene, p: Placement): (r: Scene)
    requires s.session.None?
    ensures r.session == Some(Session(s.nextId, s.nextId + 1, s.nextId + 2))
    ensures r.nextId == s.nextId + 3
    ensures r.handles == s.handles + {s.nextId + 1, s.nextId + 2}
    ensures r.listeners == s.listeners + SessionListeners(s.nextId) + StageListeners
    ensures r.node.width == s.node.width * s.node.scaleX && r.node.height == s.node.height * s.node.scaleY
    ensures r.node.scaleX == 1.0 && r.node.scaleY == 1.0
    ensures r.node.(width := s.node.width, height := s.node.height, scaleX := s.node.scaleX, scaleY := s.node.scaleY) == s.node
    ensures r.crop.Some?
    ensures forall k :: k in PlacementAttrs(p) ==> k in r.crop.value && r.crop.value[k] == PlacementAttrs(p)[k]
    ensures OffsetX in r.crop.value && r.crop.value[OffsetX] == 0.0
    ensures OffsetY in r.crop.value && r.crop.value[OffsetY] == 0.0
    ensures s.crop.Some? ==> forall k :: k in s.crop.value && k !in PlacementAttrs(p) && k != OffsetX && k != OffsetY ==>
      k in r.crop.value && r.crop.value[k] == s.crop.value[k]
    ensures s.crop.None? ==> "width" in r.crop.value && r.crop.value["width"] == s.node.width
    ensures s.crop.None? ==> "height" in r.crop.value && r.crop.value["height"] == s.node.height
    ensures forall k :: k in r.crop.value ==>
      || k in PlacementAttrs(p) || k == OffsetX || k == OffsetY
      || (s.crop.Some? && k in s.crop.value)
      || (s.crop.None? && k in InitialCrop(s.node))
  {
    var started := CreateGuide(s);
    var resized := Resize(started);
    var placed := ApplyPlacement(resized, p);
    assert resized.crop == started.crop && placed.node == resized.node;
    placed.(listeners := placed.listeners + SessionListeners(s.nextId) + StageListeners)
  }

  /** Lines 143-184 of `cropStart`: a missing crop becomes the whole image,
      and the guide with its two transformers gets fresh ids. */
  function CreateGuide(s: Scene): (r: Scene)
    requires s.session.None?
    ensures r.session == Some(Session(s.nextId, s.nextId + 1, s.nextId + 2))
    ensures r.nextId == s.nextId + 3
    ensures r.handles == s.handles + {s.nextId + 1, s.nextId + 2}
    ensures r.listeners == s.listeners && r.node == s.node
    ensures r.crop.Some?
    ensures s.crop.Some? ==> r.crop == s.crop
    ensures s.crop.None? ==> "width" in r.crop.value && r.crop.value["width"] == s.node.width
    ensures s.crop.None? ==> "height" in r.crop.value && r.crop.value["height"] == s.node.height
    ensures s.crop.None? ==> r.crop == Some(InitialCrop(s.node)[OffsetX := 0.0][OffsetY := 0.0])
  {
    assert map[] + InitialCrop(s.node) == InitialCrop(s.node);
    var cropped := if s.crop.None? then CropTransform(s, Object(InitialCrop(s.node))).0 else s;
    var g := Session(s.nextId, s.nextId + 1, s.nextId + 2);
    cropped.(session := Some(g), handles := s.handles + {g.guideHandles, g.nodeHandles}, nextId := s.nextId + 3)
  }

  /** `l` is one of the four listeners of lines 199-202 for guide `g`. */
  predicate IsSessionListener(l: Listener, g: nat) {
    || l == Listener(Guide(g), DragMove, OnUpdate)
    || l == Listener(Guide(g), Transform, OnUpdate)
    || l == Listener(Image, DragMove, OnUpdate)
    || l == Listener(Image, Transform, OnResizeUpdate)
  }

  /** `cropEnd` (lines 93-107): without a session nothing happens; otherwise
      both transformers are destroyed, every registration of the four
      session listeners is removed and the guide taken off the layer. The
      crop element and the stage listener stay. */
  function CropEnd(s: Scene): (r: Scene)
    ensures s.session.None? ==> r == s
    ensures r.session.None?
    ensures r.crop == s.crop && r.node == s.node && r.nextId == s.nextId
    ensures s.session.Some? ==> r.handles == s.handles - {s.session.value.guideHandles, s.session.value.nodeHandles}
    ensures s.session.Some? ==> forall l ::
      r.listeners[l] == (if IsSessionListener(l, s.session.value.guide) then 0 else s.listeners[l])
  {
    match s.session
    case None => s
    case Some(g) =>
      var ls := s.listeners;
      var guideOff := ls[Listener(Guide(g.guide), DragMove, OnUpdate) := 0][Listener(Guide(g.guide), Transform, OnUpdate) := 0];
      var imageOff := guideOff[Listener(Image, DragMove, OnUpdate) := 0][Listener(Image, Transform, OnResizeUpdate) := 0];
      s.(session := None, handles := s.handles - {g.guideHandles, g.nodeHandles}, listeners := imageOff)
  }

  /** `cropReset` (lines 124-130): end any session, then delete the crop. */
  function CropReset(s: Scene): (r: Scene)
    ensures r.session.None? && r.crop.None?
    ensures s.session.None? ==> r == s.(crop := None)
    ensures s.session.Some? ==> r == CropEnd(s).(crop := None)
  {
    var ended := if s.session.Some? then CropEnd(s) else s;
    SetCropTransform(ended, False)
  }

  /** The stage's `click tap` handler (lines 204-208): a click on anything
      but the image or the current guide ends the session. */
  function OnStageClick(s: Scene, t: Target): (r: Scene)
    ensures t == Image ==> r == s
    ensures s.session.Some? && t == Guide(s.session.value.guide) ==> r == s
    ensures t != Image && !(s.session.Some? && t == Guide(s.session.value.guide)) ==> r == CropEnd(s)
  {
    var onGuide := s.session.Some? && t == Guide(s.session.value.guide);
    if t != Image && !onGuide then CropEnd(s) else s
  }

  /** `enableCropOnDblClick` (lines 59-63): one more `dblclick` listener. */
  function EnableCropOnDblClick(s: Scene): (r: Scene)
    ensures r.listeners == s.listeners + multiset{Listener(Image, DblClick, OnDblClick)}
    ensures r.(listeners := s.listeners) == s
  {
    s.(listeners := s.listeners + multiset{Listener(Image, DblClick, OnDblClick)})
  }
}
