/** Properties of the crop-session lifecycle that relate several calls:
    the bookkeeping invariant every operation keeps, what a start followed by
    an end leaves behind, re-entry, idempotence and the getter/setter round
    trip. */
module CropProperties {
  import opened Wrappers
  import opened Affine
  import opened CropSession

  /** A freshly created image: no crop, no session, nothing registered. */
  function Fresh(n: ImageNode): (r: Scene)
    ensures Valid(r) && GetCropTransform(r).None? && r.session.None?
  {
    Scene(n, None, None, {}, multiset{}, 0)
  }

  /** After `setCropTransform(v)` with an object, `getCropTransform` returns
      every attribute of `v` (the offsets forced to 0); after
      `setCropTransform(false)` it returns nothing. */
  lemma SetThenGet(s: Scene, v: Attrs)
    ensures GetCropTransform(SetCropTransform(s, False)).None?
    ensures var got := GetCropTransform(SetCropTransform(s, Object(v)));
      && got.Some?
      && OffsetX in got.value && got.value[OffsetX] == 0.0
      && OffsetY in got.value && got.value[OffsetY] == 0.0
      && (forall k :: k in v && k != OffsetX && k != OffsetY ==> k in got.value && got.value[k] == v[k])
      && (forall k :: k in got.value ==> k in v || k == OffsetX || k == OffsetY || (s.crop.Some? && k in s.crop.value))
  {
  }

  /** `cropTransform(false)` is a getter: unlike `setCropTransform(false)` it
      does not clear the crop. */
  lemma CropTransformFalseKeepsCrop(s: Scene)
    ensures CropTransform(s, False).0.crop == s.crop
    ensures CropTransform(s, False).1 == s.crop
    ensures s.crop.Some? ==> CropTransform(s, False).0.crop != SetCropTransform(s, False).crop
  {
  }

  /** Folding the scale twice is folding it once. */
  lemma ResizeIdempotent(s: Scene)
    ensures Resize(Resize(s)) == Resize(s)
  {
  }

  /** A second `cropStart` during a session creates no second guide, but it
      has destroyed the session's transformers: it is not a no-op. */
  lemma StartReentry(s: Scene, p: Placement, p': Placement)
    ensures CropStart(CropStart(s, p), p') == CropStart(s, p).(handles := {})
    ensures s.session.None? ==> CropStart(CropStart(s, p), p') != CropStart(s, p)
  {
    var once := CropStart(s, p);
    if s.session.None? {
      assert once.handles == {s.nextId + 1, s.nextId + 2};
      assert s.nextId + 1 in once.handles;
    }
  }

  /** Ending twice is ending once. */
  lemma EndIdempotent(s: Scene)
    ensures CropEnd(CropEnd(s)) == CropEnd(s)
  {
  }

  /** Whatever the state, a reset leaves no session and no crop. */
  lemma ResetAlwaysClears(s: Scene)
    ensures CropReset(s).session.None? && CropReset(s).crop.None?
    ensures CropReset(CropReset(s)) == CropReset(s)
  {
  }

  /** Once the session has ended, the stage listener that `cropEnd` left
      behind still fires on every click, harmlessly. */
  lemma StaleStageClickHarmless(s: Scene, t: Target)
    requires s.session.None?
    ensures OnStageClick(s, t) == s
  {
  }

  /** A start immediately followed by an end does not restore the listener
      set: the stage's `click tap` registration stays, and every transformer
      that was on the stage before is gone. The crop survives. */
  lemma StartThenEnd(s: Scene, p: Placement)
    requires Valid(s) && s.session.None?
    ensures CropEnd(CropStart(s, p)).listeners == s.listeners + StageListeners
    ensures CropEnd(CropStart(s, p)).listeners != s.listeners
    ensures CropEnd(CropStart(s, p)).handles == {}
    ensures CropEnd(CropStart(s, p)).session.None?
    ensures CropEnd(CropStart(s, p)).crop.Some?
  {
    var started := CropStart(s, p);
    var ended := CropEnd(started);
    var g := s.nextId;
    assert started.listeners == s.listeners + SessionListeners(g) + StageListeners;
    forall l
      ensures ended.listeners[l] == (s.listeners + StageListeners)[l]
    {
      if IsSessionListener(l, g) {
        assert l !in s.listeners;
        assert StageListeners[l] == 0;
      } else {
        assert SessionListeners(g)[l] == 0;
      }
    }
    assert ended.listeners == s.listeners + StageListeners;
    assert StageListeners[Listener(Stage, Click, OnOutsideClick)] == 1;
    assert ended.listeners[Listener(Stage, Click, OnOutsideClick)] == s.listeners[Listener(Stage, Click, OnOutsideClick)] + 1;
  }

  /** `cropStart` keeps the bookkeeping consistent. */
  lemma StartKeepsValid(s: Scene, p: Placement)
    requires Valid(s)
    ensures Valid(CropStart(s, p))
  {
    var r := CropStart(s, p);
    if s.session.None? {
      var g := s.nextId;
      forall l | l in r.listeners && l.target.Guide?
        ensures l.target.id == g
      {
        if l in s.listeners {
          assert false;
        }
      }
    }
  }

  /** `cropEnd` keeps the bookkeeping consistent. */
  lemma EndKeepsValid(s: Scene)
    requires Valid(s)
    ensures Valid(CropEnd(s))
  {
    var r := CropEnd(s);
    if s.session.Some? {
      var g := s.session.value.guide;
      forall l | l in s.listeners && l.target.Guide?
        ensures l !in r.listeners
      {
        assert IsSessionListener(l, g);
      }
    }
  }

  /** Setting, reading and resizing keep the bookkeeping consistent. */
  lemma AttrsKeepValid(s: Scene, v: Arg)
    requires Valid(s)
    ensures Valid(SetCropTransform(s, v))
    ensures Valid(CropTransform(s, v).0)
    ensures Valid(Resize(s))
  {
  }

  /** The guide's update handlers keep the bookkeeping consistent. */
  lemma UpdateKeepsValid(s: Scene, p: Placement)
    requires Valid(s)
    ensures CropUpdate(s, p).Some? ==> Valid(CropUpdate(s, p).value)
    ensures ResizeAndCropUpdate(s, p).Some? ==> Valid(ResizeAndCropUpdate(s, p).value)
  {
  }

  /** `cropReset` keeps the bookkeeping consistent. */
  lemma ResetKeepsValid(s: Scene)
    requires Valid(s)
    ensures Valid(CropReset(s))
  {
    EndKeepsValid(s);
  }

  /** The stage's outside-click handler keeps the bookkeeping consistent. */
  lemma ClickKeepsValid(s: Scene, t: Target)
    requires Valid(s)
    ensures Valid(OnStageClick(s, t))
  {
    EndKeepsValid(s);
  }

  /** The double-click wiring keeps the bookkeeping consistent. */
  lemma DblClickKeepsValid(s: Scene)
    requires Valid(s)
    ensures Valid(EnableCropOnDblClick(s))
  {
  }

  /** The getter sees a crop after every start, none after a reset, and the
      same crop before and after an end. */
  lemma GetterAcrossLifecycle(s: Scene, p: Placement)
    ensures GetCropTransform(CropStart(s, p)).Some? <==> s.session.None? || s.crop.Some?
    ensures GetCropTransform(CropReset(s)).None?
    ensures GetCropTransform(CropEnd(s)) == GetCropTransform(s)
  {
  }

  /** A guide sitting exactly on the image stores the neutral placement:
      position (0, 0), unit scale and the angle of the direction (1, 0). */
  lemma UpdateAtSelf(s: Scene, m: Matrix, degrees: Direction -> real)
    requires s.session.Some? && Det(m) != 0.0
    requires RootOfRelative(m, m, 1.0)
    ensures var r := CropUpdateAt(s, m, m, 1.0, degrees);
      && r.Some?
      && var stored := PlacementAttrs(Placement(0.0, 0.0, degrees(Direction(1.0, 0.0)), 1.0, 1.0));
         forall k :: k in stored ==> k in r.value.crop.value && r.value.crop.value[k] == stored[k]
  {
    var p := Placement(0.0, 0.0, degrees(Direction(1.0, 0.0)), 1.0, 1.0);
    assert GuidePlacement(m, m, 1.0, degrees) == Some(p) by {
      GetGroupCoordsOfSelf(m);
    }
    assert CropUpdateAt(s, m, m, 1.0, degrees) == CropUpdate(s, p);
  }

  /** Dragging the guide by (dx, dy) on the screen keeps the stored rotation
      and scale; only the stored position changes (by how much is
      `Affine.GroupCoordsOfDrag`). */
  lemma UpdateAfterDrag(s: Scene, guide: Matrix, image: Matrix, root: real, degrees: Direction -> real, dx: real, dy: real)
    requires s.session.Some? && Det(image) != 0.0 && !(guide.a == 0.0 && guide.b == 0.0)
    requires RootOfRelative(guide, image, root) && RootOfRelative(Translate(guide, dx, dy), image, root)
    ensures var before := CropUpdateAt(s, guide, image, root, degrees).value.crop.value;
            var after := CropUpdateAt(s, Translate(guide, dx, dy), image, root, degrees).value.crop.value;
      forall k :: k in ["rotation", "scaleX", "scaleY"] ==> k in before && k in after && after[k] == before[k]
  {
    var moved := Translate(guide, dx, dy);
    DragPlacements(guide, image, root, degrees, dx, dy);
    var p, p' := GuidePlacement(guide, image, root, degrees).value, GuidePlacement(moved, image, root, degrees).value;
    assert CropUpdateAt(s, guide, image, root, degrees) == CropUpdate(s, p);
    assert CropUpdateAt(s, moved, image, root, degrees) == CropUpdate(s, p');
  }

  /** The placements before and after a drag differ only in position. */
  lemma DragPlacements(guide: Matrix, image: Matrix, root: real, degrees: Direction -> real, dx: real, dy: real)
    requires Det(image) != 0.0 && !(guide.a == 0.0 && guide.b == 0.0)
    requires RootOfRelative(guide, image, root) && RootOfRelative(Translate(guide, dx, dy), image, root)
    ensures GuidePlacement(guide, image, root, degrees).Some?
    ensures GuidePlacement(Translate(guide, dx, dy), image, root, degrees).Some?
    ensures var p := GuidePlacement(guide, image, root, degrees).value;
            var p' := GuidePlacement(Translate(guide, dx, dy), image, root, degrees).value;
      p'.(x := p.x, y := p.y) == p
  {
    var moved := Translate(guide, dx, dy);
    var n, n' := GroupCoords(guide, image).value, GroupCoords(moved, image).value;
    assert n'.(e := n.e, f := n.f) == n by {
      GroupCoordsOfDrag(guide, image, dx, dy);
    }
    DecomposeTranslated(n, n', root);
  }
}
