/** The affine-matrix algebra of the cropping plugin: `qrDecompose` and the
    matrix part of `getGroupCoords`, over exact reals.

    A matrix is Konva's six-number array `[a, b, c, d, e, f]`, which maps a
    point (x, y) to (a·x + c·y + e, b·x + d·y + f). */
module Affine {
  import opened Wrappers

  datatype Matrix = Matrix(a: real, b: real, c: real, d: real, e: real, f: real)

  const Identity := Matrix(1.0, 0.0, 0.0, 1.0, 0.0, 0.0)

  /** Konva's `m.multiply(n)`: the matrix product m·n, the map that applies
      `n` first, then `m`. */
  function Compose(m: Matrix, n: Matrix): Matrix {
    Matrix(m.a * n.a + m.c * n.b,
           m.b * n.a + m.d * n.b,
           m.a * n.c + m.c * n.d,
           m.b * n.c + m.d * n.d,
           m.a * n.e + m.c * n.f + m.e,
           m.b * n.e + m.d * n.f + m.f)
  }

  /** The determinant of the linear part, written as the plugin writes it. */
  function Det(m: Matrix): real {
    m.a * m.d - m.c * m.b
  }

  /** Two linear equations with a non-zero determinant have only the zero
      solution: the step behind every uniqueness claim below. */
  lemma CancelLinear(p: real, q: real, r: real, s: real, u: real, v: real)
    requires p * s - r * q != 0.0
    requires p * u + r * v == 0.0
    requires q * u + s * v == 0.0
    ensures u == 0.0 && v == 0.0
  {
    assert (p * s - r * q) * u == s * (p * u + r * v) - r * (q * u + s * v);
    assert (p * s - r * q) * v == p * (q * u + s * v) - q * (p * u + r * v);
    MulZero(p * s - r * q, u);
    MulZero(p * s - r * q, v);
  }

  /** A matrix with a non-zero determinant is cancellable on the left. */
  lemma ComposeCancel(g: Matrix, n: Matrix, n': Matrix)
    requires Det(g) != 0.0
    requires Compose(g, n) == Compose(g, n')
    ensures n == n'
  {
    var l, r := Compose(g, n), Compose(g, n');
    assert n.a == n'.a && n.b == n'.b by {
      assert l.a == r.a && l.b == r.b;
      CancelColumn(g.a, g.b, g.c, g.d, n.a, n.b, n'.a, n'.b);
    }
    assert n.c == n'.c && n.d == n'.d by {
      assert l.c == r.c && l.d == r.d;
      CancelColumn(g.a, g.b, g.c, g.d, n.c, n.d, n'.c, n'.d);
    }
    assert n.e == n'.e && n.f == n'.f by {
      assert l.e == r.e && l.f == r.f;
      CancelColumn(g.a, g.b, g.c, g.d, n.e, n.f, n'.e, n'.f);
    }
  }

  /** `[A C; B D]` with a non-zero determinant sends different columns to
      different columns. */
  lemma CancelColumn(A: real, B: real, C: real, D: real, x: real, y: real, x': real, y': real)
    requires A * D - C * B != 0.0
    requires A * x + C * y == A * x' + C * y'
    requires B * x + D * y == B * x' + D * y'
    ensures x == x' && y == y'
  {
    assert A * (x - x') + C * (y - y') == 0.0;
    assert B * (x - x') + D * (y - y') == 0.0;
    CancelLinear(A, B, C, D, x - x', y - y');
  }

  /** The matrix `getGroupCoords` builds (lines 41-50 of the plugin). */
  function RelativeMatrix(obj: Matrix, group: Matrix): Matrix
    requires Det(group) != 0.0
  {
    var M, N, O, P, R, S := obj.a, obj.b, obj.c, obj.d, obj.e, obj.f;
    var A, B, C, D, E, F := group.a, group.b, group.c, group.d, group.e, group.f;
    Matrix(FirstRow(A, B, C, D, M, N), SecondRow(A, B, C, D, M, N),
           FirstRow(A, B, C, D, O, P), SecondRow(A, B, C, D, O, P),
           ShiftX(A, B, C, D, E, F, R, S), ShiftY(A, B, C, D, E, F, R, S))
  }

  /** G and I of lines 43 and 45. */
  function FirstRow(A: real, B: real, C: real, D: real, M: real, N: real): real
    requires B * C - A * D != 0.0
  {
    var AD := A * D;
    var BC := B * C;
    (C * N - M * D) / (BC - AD)
  }

  /** H and J of lines 44 and 46. */
  function SecondRow(A: real, B: real, C: real, D: real, M: real, N: real): real
    requires B * C - A * D != 0.0
  {
    var AD := A * D;
    var BC := B * C;
    (A * N - M * B) / (AD - BC)
  }

  /** K of line 47. */
  function ShiftX(A: real, B: real, C: real, D: real, E: real, F: real, R: real, S: real): real
    requires B * C - A * D != 0.0
  {
    var AD := A * D;
    var BC := B * C;
    (C * (S - F) + D * (E - R)) / (BC - AD)
  }

  /** L of line 48. */
  function ShiftY(A: real, B: real, C: real, D: real, E: real, F: real, R: real, S: real): real
    requires B * C - A * D != 0.0
  {
    var AD := A * D;
    var BC := B * C;
    (A * (S - F) + B * (E - R)) / (AD - BC)
  }

  /** `getGroupCoords` without its final decomposition: `obj` expressed in
      the frame of `group`. The source divides by `BC - AD`; when that is zero
      the JavaScript result is made of infinities or NaN, modelled as None. */
  function GroupCoords(obj: Matrix, group: Matrix): (r: Option<Matrix>)
    ensures r.None? <==> Det(group) == 0.0
    ensures r.Some? ==> Compose(group, r.value) == obj
  {
    if group.b * group.c - group.a * group.d == 0.0 then None
    else
      RelativeMatrixSolves(obj, group);
      Some(RelativeMatrix(obj, group))
  }

  /** The closed-form entries solve `group · r = obj`, one column at a time. */
  lemma RelativeMatrixSolves(obj: Matrix, group: Matrix)
    requires Det(group) != 0.0
    ensures Compose(group, RelativeMatrix(obj, group)) == obj
  {
    var A, B, C, D, E, F := group.a, group.b, group.c, group.d, group.e, group.f;
    var n := RelativeMatrix(obj, group);
    assert n == Matrix(FirstRow(A, B, C, D, obj.a, obj.b), SecondRow(A, B, C, D, obj.a, obj.b),
                       FirstRow(A, B, C, D, obj.c, obj.d), SecondRow(A, B, C, D, obj.c, obj.d),
                       ShiftX(A, B, C, D, E, F, obj.e, obj.f), ShiftY(A, B, C, D, E, F, obj.e, obj.f));
    LinearColumn(A, B, C, D, obj.a, obj.b);
    LinearColumn(A, B, C, D, obj.c, obj.d);
    TranslationColumn(A, B, C, D, E, F, obj.e, obj.f);
    var k := Compose(group, n);
    assert k.a == obj.a && k.b == obj.b;
    assert k.c == obj.c && k.d == obj.d;
    assert k.e == obj.e && k.f == obj.f;
  }

  /** Lines 43-46: the linear columns (G, H) and (I, J). */
  lemma LinearColumn(A: real, B: real, C: real, D: real, M: real, N: real)
    requires B * C - A * D != 0.0
    ensures A * FirstRow(A, B, C, D, M, N) + C * SecondRow(A, B, C, D, M, N) == M
    ensures B * FirstRow(A, B, C, D, M, N) + D * SecondRow(A, B, C, D, M, N) == N
  {
    DivMul(C * N - M * D, B * C - A * D);
    DivMul(A * N - M * B, A * D - B * C);
    SolveColumn(A, B, C, D, M, N, FirstRow(A, B, C, D, M, N), SecondRow(A, B, C, D, M, N));
  }

  /** Lines 47-48: the translation column (K, L). */
  lemma TranslationColumn(A: real, B: real, C: real, D: real, E: real, F: real, R: real, S: real)
    requires B * C - A * D != 0.0
    ensures A * ShiftX(A, B, C, D, E, F, R, S) + C * ShiftY(A, B, C, D, E, F, R, S) + E == R
    ensures B * ShiftX(A, B, C, D, E, F, R, S) + D * ShiftY(A, B, C, D, E, F, R, S) + F == S
  {
    var K := ShiftX(A, B, C, D, E, F, R, S);
    var L := ShiftY(A, B, C, D, E, F, R, S);
    DivMul(C * (S - F) + D * (E - R), B * C - A * D);
    DivMul(A * (S - F) + B * (E - R), A * D - B * C);
    assert K * (B * C - A * D) == C * (S - F) - (R - E) * D;
    assert L * (A * D - B * C) == A * (S - F) - (R - E) * B;
    SolveColumn(A, B, C, D, R - E, S - F, K, L);
  }

  /** The 2×2 system with matrix [A C; B D] and right-hand side (u, v),
      solved by Cramer's rule as the plugin writes it. */
  lemma SolveColumn(A: real, B: real, C: real, D: real, u: real, v: real, x: real, y: real)
    requires B * C - A * D != 0.0
    requires x * (B * C - A * D) == C * v - u * D
    requires y * (A * D - B * C) == A * v - u * B
    ensures A * x + C * y == u && B * x + D * y == v
  {
    var q := B * C - A * D;
    var xq, yq := x * q, y * q;
    assert yq == u * B - A * v;
    assert (A * x + C * y) * q == A * xq + C * yq;
    assert A * xq + C * yq == u * q;
    assert (B * x + D * y) * q == B * xq + D * yq;
    assert B * xq + D * yq == v * q;
    Cancel(A * x + C * y, u, q);
    Cancel(B * x + D * y, v, q);
  }

  /** `GroupCoords` is the one and only matrix that `group` composes to `obj`. */
  lemma GroupCoordsUnique(obj: Matrix, group: Matrix, n: Matrix)
    requires Det(group) != 0.0
    ensures Compose(group, n) == obj <==> GroupCoords(obj, group) == Some(n)
  {
    if Compose(group, n) == obj {
      ComposeCancel(group, n, GroupCoords(obj, group).value);
    }
  }

  /** A node taken relative to itself sits at the identity. */
  lemma GroupCoordsOfSelf(m: Matrix)
    requires Det(m) != 0.0
    ensures GroupCoords(m, m) == Some(Identity)
  {
    GroupCoordsUnique(m, m, Identity);
  }

  /** A rotation, held as the unit vector (cos θ, sin θ). The source turns
      `atan2(b, a)` into degrees; that angle is the angle of this vector. */
  datatype Direction = Direction(cos: real, sin: real)

  predicate IsUnit(r: Direction) {
    r.cos * r.cos + r.sin * r.sin == 1.0
  }

  /** The components `qrDecompose` returns. */
  datatype Components = Components(rotation: Direction, scaleX: real, scaleY: real, x: real, y: real)

  /** `root` is the non-negative square root of `v` (what `Math.sqrt` computes). */
  predicate IsRoot(root: real, v: real) {
    root >= 0.0 && root * root == v
  }

  /** The norm of (a, b) is zero exactly when both are. */
  lemma RootZero(a: real, b: real, root: real)
    requires IsRoot(root, a * a + b * b)
    ensures root == 0.0 <==> a == 0.0 && b == 0.0
  {
    SquareNonNegative(a);
    SquareNonNegative(b);
    if root == 0.0 {
      SquareZero(a);
      SquareZero(b);
    } else if a == 0.0 && b == 0.0 {
      SquareZero(root);
    }
  }

  /** `qrDecompose` on an exact matrix. The square root `Math.sqrt` returns
      is passed in as `root`. When a = b = 0 the source divides 0 by 0 and
      scaleY is NaN; that case is None. */
  function QrDecompose(m: Matrix, root: real): (r: Option<Components>)
    requires IsRoot(root, m.a * m.a + m.b * m.b)
    ensures r.None? <==> m.a == 0.0 && m.b == 0.0
    ensures r.Some? ==>
      && r.value.x == m.e && r.value.y == m.f
      && r.value.scaleX > 0.0
      && r.value.scaleX * r.value.scaleX == m.a * m.a + m.b * m.b
      && r.value.scaleX * r.value.scaleY == Det(m)
      && IsUnit(r.value.rotation)
      && r.value.scaleX * r.value.rotation.cos == m.a
      && r.value.scaleX * r.value.rotation.sin == m.b
  {
    RootZero(m.a, m.b, root);
    if root == 0.0 then None
    else
      var rot := Direction(m.a / root, m.b / root);
      UnitOfNorm(m.a, m.b, root);
      DivMul(Det(m), root);
      Some(Components(rot, root, Det(m) / root, m.e, m.f))
  }

  /** (a, b) divided by its norm is a unit vector. */
  lemma UnitOfNorm(a: real, b: real, root: real)
    requires root > 0.0 && root * root == a * a + b * b
    ensures IsUnit(Direction(a / root, b / root))
    ensures root * (a / root) == a && root * (b / root) == b
  {
    var u, v := a / root, b / root;
    DivMul(a, root);
    DivMul(b, root);
    var q := root * root;
    var w := u * u + v * v;
    assert w * q == (u * root) * (u * root) + (v * root) * (v * root);
    assert (u * root) * (u * root) == a * a;
    assert (v * root) * (v * root) == b * b;
    assert q == a * a + b * b;
    assert w * q == q;
    if q == 0.0 {
      SquareZero(root);
    }
    CancelOne(w, q);
  }

  /** The matrix Konva builds from x, y, rotation, scaleX and scaleY
      (no skew, no offset): translate, then rotate, then scale. */
  function Recompose(p: Components): Matrix {
    Matrix(p.scaleX * p.rotation.cos, p.scaleX * p.rotation.sin,
           -p.scaleY * p.rotation.sin, p.scaleY * p.rotation.cos,
           p.x, p.y)
  }

  /** The columns of the linear part are perpendicular: the matrix has no shear. */
  predicate ShearFree(m: Matrix) {
    m.a * m.c + m.b * m.d == 0.0
  }

  /** Decomposing and recomposing gives the matrix back exactly when it has no
      shear: `qrDecompose` drops the shear part. */
  lemma DecomposeRecompose(m: Matrix, root: real)
    requires IsRoot(root, m.a * m.a + m.b * m.b)
    requires root != 0.0
    ensures QrDecompose(m, root).Some?
    ensures Recompose(QrDecompose(m, root).value) == m <==> ShearFree(m)
  {
    RootZero(m.a, m.b, root);
    var p := QrDecompose(m, root).value;
    var n := Recompose(p);
    ShearResidue(m.a, m.b, m.c, m.d, p.scaleX, p.scaleY, p.rotation.cos, p.rotation.sin);
    assert n.a == m.a && n.b == m.b && n.e == m.e && n.f == m.f;
  }

  /** The scalar core of `DecomposeRecompose`: the rebuilt second column
      differs from (c, d) by a multiple of the shear a·c + b·d. */
  lemma ShearResidue(a: real, b: real, c: real, d: real, s: real, sy: real, co: real, si: real)
    requires s > 0.0 && s * s == a * a + b * b
    requires s * sy == a * d - c * b
    requires s * co == a && s * si == b
    ensures (-sy * si == c && sy * co == d) <==> a * c + b * d == 0.0
  {
    var w := a * c + b * d;
    var q := s * s;
    assert q * (-sy * si) == -((s * sy) * (s * si));
    assert q * (-sy * si - c) == -(a * d - c * b) * b - (a * a + b * b) * c;
    assert q * (-sy * si - c) == -a * w;
    assert q * (sy * co) == (s * sy) * (s * co);
    assert q * (sy * co - d) == (a * d - c * b) * a - (a * a + b * b) * d;
    assert q * (sy * co - d) == -b * w;
    if q == 0.0 {
      SquareZero(s);
    }
    if w == 0.0 {
      MulZero(q, -sy * si - c);
      MulZero(q, sy * co - d);
    }
    if -sy * si == c && sy * co == d {
      assert a * w == 0.0 && b * w == 0.0;
      if a != 0.0 {
        MulZero(a, w);
      } else {
        assert b != 0.0;
        MulZero(b, w);
      }
    }
  }

  /** Recomposing a rotation and a positive scale and decomposing again gives
      them back: in particular a pure rotation with uniform scale s decomposes
      to scaleX = scaleY = s. */
  lemma RecomposeDecompose(p: Components)
    requires IsUnit(p.rotation) && p.scaleX > 0.0
    ensures IsRoot(p.scaleX, Recompose(p).a * Recompose(p).a + Recompose(p).b * Recompose(p).b)
    ensures QrDecompose(Recompose(p), p.scaleX) == Some(p)
  {
    var m := Recompose(p);
    var s, sy, co, si := p.scaleX, p.scaleY, p.rotation.cos, p.rotation.sin;
    assert m.a * m.a + m.b * m.b == s * s * (co * co + si * si);
    assert Det(m) == s * sy * (co * co + si * si);
    MulDiv(co, s);
    MulDiv(si, s);
    MulDiv(sy, s);
    assert m.a / s == co && m.b / s == si;
    assert Det(m) / s == sy;
  }

  /** The identity decomposes to no rotation, unit scale and no translation. */
  lemma DecomposeIdentity()
    ensures QrDecompose(Identity, 1.0) == Some(Components(Direction(1.0, 0.0), 1.0, 1.0, 0.0, 0.0))
  {
  }

  /** `getGroupCoords` (lines 34-54): `obj` in the frame of `group`,
      decomposed. `root` is `Math.sqrt` of the squared length of the
      relative matrix's first column. None where the source would compute
      with an infinity or NaN. Where the relative matrix has no shear, the
      components rebuild a matrix that `group` carries exactly onto `obj`. */
  function GetGroupCoords(obj: Matrix, group: Matrix, root: real): (r: Option<Components>)
    requires RootOfRelative(obj, group, root)
    ensures r.None? <==> Det(group) == 0.0 || (obj.a == 0.0 && obj.b == 0.0)
    ensures var rel := GroupCoords(obj, group);
      r.Some? ==> rel.Some? && r.value.x == rel.value.e && r.value.y == rel.value.f
    ensures var rel := GroupCoords(obj, group);
      r.Some? ==> rel.Some? && (Compose(group, Recompose(r.value)) == obj <==> ShearFree(rel.value))
    ensures var rel := GroupCoords(obj, group);
      r.Some? ==> rel.Some? && QrDecompose(rel.value, root) == r
  {
    var rel := GroupCoords(obj, group);
    assert rel.Some? ==> IsRoot(root, rel.value.a * rel.value.a + rel.value.b * rel.value.b);
    var r := if rel.None? then None else QrDecompose(rel.value, root);
    DecomposedGroupCoords(obj, group, root, rel, r);
    r
  }

  /** `root` is the length of the first column of `obj` relative to
      `group`, where that relative matrix exists. */
  predicate RootOfRelative(obj: Matrix, group: Matrix, root: real) {
    var n := GroupCoords(obj, group);
    n.Some? ==> IsRoot(root, n.value.a * n.value.a + n.value.b * n.value.b)
  }

  /** The contract of `GetGroupCoords`, stated over its intermediate values. */
  lemma DecomposedGroupCoords(obj: Matrix, group: Matrix, root: real, rel: Option<Matrix>, r: Option<Components>)
    requires rel.None? <==> Det(group) == 0.0
    requires rel.Some? ==> Compose(group, rel.value) == obj
    requires rel.Some? ==> IsRoot(root, rel.value.a * rel.value.a + rel.value.b * rel.value.b)
    requires r == if rel.None? then None else QrDecompose(rel.value, root)
    ensures r.None? <==> Det(group) == 0.0 || (obj.a == 0.0 && obj.b == 0.0)
    ensures r.Some? ==> rel.Some? && r.value.x == rel.value.e && r.value.y == rel.value.f
    ensures r.Some? ==> rel.Some? && (Compose(group, Recompose(r.value)) == obj <==> ShearFree(rel.value))
  {
    if rel.Some? {
      DecomposedRelative(obj, group, rel.value, root);
    }
  }

  /** Decomposing a relative matrix `n` of `obj` in the frame of `group`. */
  lemma DecomposedRelative(obj: Matrix, group: Matrix, n: Matrix, root: real)
    requires Det(group) != 0.0 && Compose(group, n) == obj
    requires IsRoot(root, n.a * n.a + n.b * n.b)
    ensures QrDecompose(n, root).None? <==> obj.a == 0.0 && obj.b == 0.0
    ensures QrDecompose(n, root).Some? ==>
      (Compose(group, Recompose(QrDecompose(n, root).value)) == obj <==> ShearFree(n))
  {
    RelativeFirstColumn(obj, group, n);
    RootZero(n.a, n.b, root);
    var c := QrDecompose(n, root);
    if c.Some? {
      RecomposeRelative(obj, group, n, root, c.value);
    }
  }

  /** Rebuilt components land on `obj` exactly when `n` has no shear. */
  lemma RecomposeRelative(obj: Matrix, group: Matrix, n: Matrix, root: real, c: Components)
    requires Det(group) != 0.0 && Compose(group, n) == obj
    requires IsRoot(root, n.a * n.a + n.b * n.b) && root != 0.0
    requires QrDecompose(n, root) == Some(c)
    ensures Compose(group, Recompose(c)) == obj <==> ShearFree(n)
  {
    DecomposeRecompose(n, root);
    if Compose(group, Recompose(c)) == obj {
      ComposeCancel(group, Recompose(c), n);
    }
  }

  /** The relative matrix's first column vanishes exactly when the
      object's does. */
  lemma RelativeFirstColumn(obj: Matrix, group: Matrix, n: Matrix)
    requires Det(group) != 0.0 && Compose(group, n) == obj
    ensures n.a == 0.0 && n.b == 0.0 <==> obj.a == 0.0 && obj.b == 0.0
  {
    var k := Compose(group, n);
    assert k.a == obj.a && k.b == obj.b;
    if obj.a == 0.0 && obj.b == 0.0 {
      CancelLinear(group.a, group.b, group.c, group.d, n.a, n.b);
    }
  }

  /** A node taken relative to itself decomposes to no rotation, unit scale
      and no translation. */
  lemma GetGroupCoordsOfSelf(m: Matrix)
    requires Det(m) != 0.0
    ensures GetGroupCoords(m, m, 1.0) == Some(Components(Direction(1.0, 0.0), 1.0, 1.0, 0.0, 0.0))
  {
    GroupCoordsOfSelf(m);
    DecomposeIdentity();
  }

  /** Two matrices with the same linear part decompose to the same rotation
      and scale. */
  lemma DecomposeTranslated(n: Matrix, n': Matrix, root: real)
    requires n'.(e := n.e, f := n.f) == n
    requires IsRoot(root, n.a * n.a + n.b * n.b)
    ensures QrDecompose(n', root) == match QrDecompose(n, root)
      case None => None
      case Some(c) => Some(c.(x := n'.e, y := n'.f))
  {
    assert n'.a == n.a && n'.b == n.b && n'.c == n.c && n'.d == n.d;
    assert Det(n') == Det(n);
  }

  /** `m` moved by (dx, dy) on the screen. */
  function Translate(m: Matrix, dx: real, dy: real): Matrix {
    m.(e := m.e + dx, f := m.f + dy)
  }

  /** Dragging the guide by (dx, dy) on the screen leaves its rotation and
      scale relative to the image alone and moves its relative position by
      the screen movement brought back through the image's linear part. */
  lemma GroupCoordsOfDrag(obj: Matrix, group: Matrix, dx: real, dy: real)
    requires Det(group) != 0.0
    ensures var before := GroupCoords(obj, group).value;
            var after := GroupCoords(Translate(obj, dx, dy), group).value;
      && after.(e := before.e, f := before.f) == before
      && group.a * (after.e - before.e) + group.c * (after.f - before.f) == dx
      && group.b * (after.e - before.e) + group.d * (after.f - before.f) == dy
  {
    DragShift(obj, group, GroupCoords(obj, group).value, GroupCoords(Translate(obj, dx, dy), group).value, dx, dy);
  }

  /** `GroupCoordsOfDrag` over the two relative matrices. */
  lemma DragShift(obj: Matrix, group: Matrix, before: Matrix, after: Matrix, dx: real, dy: real)
    requires Det(group) != 0.0
    requires Compose(group, before) == obj
    requires Compose(group, after) == Translate(obj, dx, dy)
    ensures after.(e := before.e, f := before.f) == before
    ensures group.a * (after.e - before.e) + group.c * (after.f - before.f) == dx
    ensures group.b * (after.e - before.e) + group.d * (after.f - before.f) == dy
  {
    var l, r := Compose(group, after), Compose(group, before);
    assert after.a == before.a && after.b == before.b by {
      assert l.a == r.a && l.b == r.b;
      CancelColumn(group.a, group.b, group.c, group.d, after.a, after.b, before.a, before.b);
    }
    assert after.c == before.c && after.d == before.d by {
      assert l.c == r.c && l.d == r.d;
      CancelColumn(group.a, group.b, group.c, group.d, after.c, after.d, before.c, before.d);
    }
    assert group.a * (after.e - before.e) + group.c * (after.f - before.f) == dx by {
      assert group.a * (after.e - before.e) + group.c * (after.f - before.f) == l.e - r.e;
    }
    assert group.b * (after.e - before.e) + group.d * (after.f - before.f) == dy by {
      assert group.b * (after.e - before.e) + group.d * (after.f - before.f) == l.f - r.f;
    }
  }

  // Real-arithmetic steps the solver does not take on its own.

  lemma MulZero(x: real, y: real)
    requires x != 0.0 && x * y == 0.0
    ensures y == 0.0
  {
  }

  lemma Cancel(x: real, y: real, q: real)
    requires q != 0.0 && x * q == y * q
    ensures x == y
  {
    assert (x - y) * q == 0.0;
    MulZero(q, x - y);
  }

  lemma CancelOne(x: real, q: real)
    requires q != 0.0 && x * q == q
    ensures x == 1.0
  {
    assert (x - 1.0) * q == 0.0;
    MulZero(q, x - 1.0);
  }

  lemma DivMul(n: real, q: real)
    requires q != 0.0
    ensures (n / q) * q == n && q * (n / q) == n
  {
  }

  lemma MulDiv(x: real, q: real)
    requires q != 0.0
    ensures (q * x) / q == x
  {
  }

  lemma SquareNonNegative(x: real)
    ensures x * x >= 0.0
  {
    if x < 0.0 {
      assert x * x == (-x) * (-x);
    }
  }

  lemma SquareZero(x: real)
    requires x * x == 0.0
    ensures x == 0.0
  {
    if x != 0.0 {
      MulZero(x, x);
    }
  }
}
