/** The 2D algebra of `src/math.ts`: `Vec2`, the affine `Matrix`, `Rectangle`
    and `Quad`. Numbers are exact reals; the trigonometric and square-root
    members are not part of this model. */
module Math {

  // ---------------------------------------------------------------- Vec2

  datatype Vec2 = Vec2(x: real, y: real)

  function Add(u: Vec2, v: Vec2): Vec2 { Vec2(u.x + v.x, u.y + v.y) }

  function Sub(u: Vec2, v: Vec2): Vec2 { Vec2(u.x - v.x, u.y - v.y) }

  /** Componentwise product (`Vec2.mul`). */
  function Mul(u: Vec2, v: Vec2): Vec2 { Vec2(u.x * v.x, u.y * v.y) }

  function Scale(u: Vec2, n: real): Vec2 { Vec2(u.x * n, u.y * n) }

  function Dot(u: Vec2, v: Vec2): real { u.x * v.x + u.y * v.y }

  /** The z component of the 3D cross product. */
  function Cross(u: Vec2, v: Vec2): real { u.x * v.y - u.y * v.x }

  /** Rotation by a quarter turn (`(x, y)` becomes `(-y, x)`). */
  function Perpendicular(u: Vec2): Vec2 { Vec2(-u.y, u.x) }

  function Half(u: Vec2): Vec2 { Vec2(u.x / 2.0, u.y / 2.0) }

  function LengthSquared(u: Vec2): (r: real)
    ensures r >= 0.0
  {
    SquareNonNegative(u.x);
    SquareNonNegative(u.y);
    u.x * u.x + u.y * u.y
  }

  lemma SquareNonNegative(x: real)
    ensures x * x >= 0.0
  {
    if x < 0.0 {
      assert x * x == (-x) * (-x);
    }
  }

  /** Subtracting undoes adding. */
  lemma SubUndoesAdd(u: Vec2, v: Vec2)
    ensures Sub(Add(u, v), v) == u && Add(Sub(u, v), v) == u
  {
  }

  /** `perpendicular` is orthogonal to its argument, keeps its length, and
      applied twice negates it. */
  lemma PerpendicularProperties(u: Vec2)
    ensures Dot(u, Perpendicular(u)) == 0.0
    ensures LengthSquared(Perpendicular(u)) == LengthSquared(u)
    ensures Perpendicular(Perpendicular(u)) == Vec2(-u.x, -u.y)
  {
  }

  /** The cross product is the dot product with the perpendicular, so it is
      antisymmetric and vanishes on a vector with itself. */
  lemma CrossIsPerpendicularDot(u: Vec2, v: Vec2)
    ensures Cross(u, v) == Dot(Perpendicular(u), v)
    ensures Cross(u, v) == -Cross(v, u)
    ensures Cross(u, u) == 0.0
  {
  }

  /** `length_squared` is the dot product of a vector with itself. */
  lemma LengthSquaredIsDot(u: Vec2)
    ensures LengthSquared(u) == Dot(u, u)
  {
  }

  // -------------------------------------------------------------- Matrix

  /** The six numbers of a `Matrix`, laid out as
        a c tx
        b d ty
        0 0 1   */
  datatype Affine = Affine(a: real, b: real, c: real, d: real, tx: real, ty: real)

  const Identity: Affine := Affine(1.0, 0.0, 0.0, 1.0, 0.0, 0.0)

  /** `mVec2`: the image of a point. */
  function Apply(m: Affine, v: Vec2): Vec2
  {
    Vec2(m.a * v.x + m.c * v.y + m.tx, m.b * v.x + m.d * v.y + m.ty)
  }

  function Det(m: Affine): real { m.a * m.d - m.b * m.c }

  /** The matrix `translate(x, y)` leaves behind. */
  function Translated(m: Affine, x: real, y: real): (r: Affine)
    ensures forall v :: Apply(r, v) == Add(Apply(m, v), Vec2(x, y))
  {
    m.(tx := x + m.tx, ty := y + m.ty)
  }

  /** The matrix `scale(x, y)` leaves behind: it OVERWRITES the diagonal
      instead of multiplying it. */
  function Scaled(m: Affine, x: real, y: real): (r: Affine)
    ensures r.a == x && r.d == y
    ensures r.b == m.b && r.c == m.c && r.tx == m.tx && r.ty == m.ty
    ensures m.b == 0.0 && m.c == 0.0 ==>
              forall v :: Apply(r, v) == Add(Mul(Vec2(x, y), v), Vec2(m.tx, m.ty))
  {
    m.(a := x, d := y)
  }

  /** The matrix `p.mul(m)` leaves in `p`: apply `m` first, then `p`. */
  function Compose(p: Affine, m: Affine): Affine
  {
    Affine(m.a * p.a + m.b * p.c, m.a * p.b + m.b * p.d,
           m.c * p.a + m.d * p.c, m.c * p.b + m.d * p.d,
           m.tx * p.a + m.ty * p.c + p.tx, m.tx * p.b + m.ty * p.d + p.ty)
  }

  /** The `inverse` getter: the adjugate divided by the determinant, each
      division written as a product with the determinant's reciprocal. */
  function Inverse(m: Affine): Affine
    requires Det(m) != 0.0
  {
    var k := 1.0 / Det(m);
    Affine(m.d * k, -m.b * k, -m.c * k, m.a * k,
           (m.c * m.ty - m.d * m.tx) * k, -(m.a * m.ty - m.b * m.tx) * k)
  }

  /** `Matrix.projection(width, height)`: pixel space to clip space. */
  function Projection(width: real, height: real): Affine
    requires width != 0.0 && height != 0.0
  {
    Affine(1.0 / width * 2.0, 0.0, 0.0, -1.0 / height * 2.0, -1.0, 1.0)
  }

  /** After `p.mul(m)`, `p.mVec2(v)` is the old `p.mVec2(m.mVec2(v))`. */
  lemma ComposeApplies(p: Affine, m: Affine, v: Vec2)
    ensures Apply(Compose(p, m), v) == Apply(p, Apply(m, v))
  {
    ComposeAppliesX(p.a, p.b, p.c, p.d, p.tx, p.ty, m.a, m.b, m.c, m.d, m.tx, m.ty, v.x, v.y);
    ComposeAppliesY(p.a, p.b, p.c, p.d, p.tx, p.ty, m.a, m.b, m.c, m.d, m.tx, m.ty, v.x, v.y);
  }

  lemma ComposeAppliesX(pa: real, pb: real, pc: real, pd: real, ptx: real, pty: real,
                        ma: real, mb: real, mc: real, md: real, mtx: real, mty: real, x: real, y: real)
    ensures var p, m := Affine(pa, pb, pc, pd, ptx, pty), Affine(ma, mb, mc, md, mtx, mty);
            Apply(Compose(p, m), Vec2(x, y)).x == Apply(p, Apply(m, Vec2(x, y))).x
  {
    ComposeRow(pa, pc, ptx, ma, mb, mc, md, mtx, mty, x, y);
  }

  lemma ComposeAppliesY(pa: real, pb: real, pc: real, pd: real, ptx: real, pty: real,
                        ma: real, mb: real, mc: real, md: real, mtx: real, mty: real, x: real, y: real)
    ensures var p, m := Affine(pa, pb, pc, pd, ptx, pty), Affine(ma, mb, mc, md, mtx, mty);
            Apply(Compose(p, m), Vec2(x, y)).y == Apply(p, Apply(m, Vec2(x, y))).y
  {
    ComposeRow(pb, pd, pty, ma, mb, mc, md, mtx, mty, x, y);
  }

  /** One row of the composed matrix applied to a point. */
  lemma ComposeRow(pa: real, pc: real, ptx: real, ma: real, mb: real, mc: real, md: real,
                   mtx: real, mty: real, x: real, y: real)
    ensures (ma * pa + mb * pc) * x + (mc * pa + md * pc) * y + (mtx * pa + mty * pc + ptx)
            == pa * (ma * x + mc * y + mtx) + pc * (mb * x + md * y + mty) + ptx
  {
    assert (ma * pa + mb * pc) * x == pa * (ma * x) + pc * (mb * x);
    assert (mc * pa + md * pc) * y == pa * (mc * y) + pc * (md * y);
    assert pa * (ma * x + mc * y + mtx) == pa * (ma * x) + pa * (mc * y) + pa * mtx;
    assert pc * (mb * x + md * y + mty) == pc * (mb * x) + pc * (md * y) + pc * mty;
  }

  /** The identity matrix maps every point to itself. */
  lemma IdentityFixes(v: Vec2)
    ensures Apply(Identity, v) == v
  {
  }

  /** For an invertible matrix, `inverse` undoes `mVec2`. */
  lemma InverseUndoesApply(m: Affine, v: Vec2)
    requires Det(m) != 0.0
    ensures Apply(Inverse(m), Apply(m, v)) == v
  {
    var k := 1.0 / Det(m);
    assert m == Affine(m.a, m.b, m.c, m.d, m.tx, m.ty) && v == Vec2(v.x, v.y);
    InverseAt(m.a, m.b, m.c, m.d, m.tx, m.ty, v.x, v.y, k);
  }

  // The same with every matrix entry, coordinate and the reciprocal of the
  // determinant a separate variable.
  lemma InverseAt(a: real, b: real, c: real, d: real, tx: real, ty: real, x: real, y: real, k: real)
    requires k * (a * d - b * c) == 1.0
    ensures Apply(Affine(d * k, -b * k, -c * k, a * k, (c * ty - d * tx) * k, -(a * ty - b * tx) * k),
                  Apply(Affine(a, b, c, d, tx, ty), Vec2(x, y))) == Vec2(x, y)
  {
    InverseRows(a, b, c, d, tx, ty, x, y, k);
  }

  // The two rows of the inverse applied to an image point.
  lemma InverseRows(a: real, b: real, c: real, d: real, tx: real, ty: real, x: real, y: real, k: real)
    requires k * (a * d - b * c) == 1.0
    ensures (d * k) * (a * x + c * y + tx) + (-c * k) * (b * x + d * y + ty)
            + (c * ty - d * tx) * k == x
    ensures (-b * k) * (a * x + c * y + tx) + (a * k) * (b * x + d * y + ty)
            + -(a * ty - b * tx) * k == y
  {
    assert (d * k) * (a * x + c * y + tx) + (-c * k) * (b * x + d * y + ty) + (c * ty - d * tx) * k
        == k * (d * (a * x + c * y + tx) - c * (b * x + d * y + ty) + c * ty - d * tx);
    DetRowX(a, b, c, d, tx, ty, x, y);
    assert k * ((a * d - b * c) * x) == (k * (a * d - b * c)) * x;
    assert (-b * k) * (a * x + c * y + tx) + (a * k) * (b * x + d * y + ty) + -(a * ty - b * tx) * k
        == k * (a * (b * x + d * y + ty) - b * (a * x + c * y + tx) - a * ty + b * tx);
    DetRowY(a, b, c, d, tx, ty, x, y);
    assert k * ((a * d - b * c) * y) == (k * (a * d - b * c)) * y;
  }

  // The two polynomial identities behind the inverse, one per coordinate.
  lemma DetRowX(a: real, b: real, c: real, d: real, tx: real, ty: real, x: real, y: real)
    ensures d * (a * x + c * y + tx) - c * (b * x + d * y + ty) + c * ty - d * tx == (a * d - b * c) * x
  {
  }

  lemma DetRowY(a: real, b: real, c: real, d: real, tx: real, ty: real, x: real, y: real)
    ensures a * (b * x + d * y + ty) - b * (a * x + c * y + tx) - a * ty + b * tx == (a * d - b * c) * y
  {
  }

  /** The projection sends the top-left pixel corner to clip-space (-1, 1)
      and the bottom-right one to (1, -1). */
  lemma ProjectionCorners(width: real, height: real)
    requires width != 0.0 && height != 0.0
    ensures Apply(Projection(width, height), Vec2(0.0, 0.0)) == Vec2(-1.0, 1.0)
    ensures Apply(Projection(width, height), Vec2(width, height)) == Vec2(1.0, -1.0)
  {
    var p := Projection(width, height);
    assert p.a * width == 2.0;
    assert p.d * height == -2.0;
  }

  /** A `Matrix` object: the mutators overwrite its fields in place and
      return it. */
  class Matrix {
    var a: real
    var b: real
    var c: real
    var d: real
    var tx: real
    var ty: real

    function Value(): Affine
      reads this
    {
      Affine(a, b, c, d, tx, ty)
    }

    constructor (a: real, b: real, c: real, d: real, tx: real, ty: real)
      ensures Value() == Affine(a, b, c, d, tx, ty)
    {
      this.a, this.b, this.c, this.d, this.tx, this.ty := a, b, c, d, tx, ty;
    }

    method Translate(x: real, y: real) returns (self: Matrix)
      modifies this
      ensures self == this
      ensures Value() == Translated(old(Value()), x, y)
    {
      var tx', ty' := x + this.tx, y + this.ty;
      this.tx := tx';
      this.ty := ty';
      self := this;
    }

    method Scale(x: real, y: real) returns (self: Matrix)
      modifies this
      ensures self == this
      ensures Value() == Scaled(old(Value()), x, y)
    {
      this.a := x;
      this.d := y;
      self := this;
    }

    /** `mul(m)`: this matrix becomes `m` applied after it. `mul` reads
        `m`'s entries while overwriting its own, so `m.mul(m)` is not covered
        by this contract. */
    method Mul(m: Matrix)
      modifies this
      ensures m != this ==> Value() == Compose(old(Value()), old(m.Value()))
    {
      var a, b, c, d, tx, ty := this.a, this.b, this.c, this.d, this.tx, this.ty;
      ghost var p, q := Value(), m.Value();
      this.a := m.a * a + m.b * c;
      assert m != this ==> this.a == q.a * p.a + q.b * p.c;
      this.b := m.a * b + m.b * d;
      assert m != this ==> this.b == q.a * p.b + q.b * p.d;
      this.c := m.c * a + m.d * c;
      assert m != this ==> this.c == q.c * p.a + q.d * p.c;
      this.d := m.c * b + m.d * d;
      assert m != this ==> this.d == q.c * p.b + q.d * p.d;
      this.tx := m.tx * a + m.ty * c + tx;
      assert m != this ==> this.tx == q.tx * p.a + q.ty * p.c + p.tx;
      this.ty := m.tx * b + m.ty * d + ty;
      if m != this {
        ComposeFromFields(p, q, Value());
      }
    }
  }

  /** The entries of `p.mul(m)` determine the composed matrix. */
  lemma ComposeFromFields(p: Affine, m: Affine, r: Affine)
    requires r.a == m.a * p.a + m.b * p.c && r.b == m.a * p.b + m.b * p.d
    requires r.c == m.c * p.a + m.d * p.c && r.d == m.c * p.b + m.d * p.d
    requires r.tx == m.tx * p.a + m.ty * p.c + p.tx && r.ty == m.tx * p.b + m.ty * p.d + p.ty
    ensures r == Compose(p, m)
  {
  }

  // ----------------------------------------------------------- Rectangle

  /** A `Rectangle` is its list of vertices; `make` lists the corners
      top-left, top-right, bottom-right, bottom-left. */
  datatype Rectangle = Rectangle(vertices: seq<Vec2>)

  function MakeRect(x: real, y: real, w: real, h: real): (r: Rectangle)
    ensures |r.vertices| == 4
  {
    Rectangle([Vec2(x, y), Vec2(x + w, y), Vec2(x + w, y + h), Vec2(x, y + h)])
  }

  /** The getters read vertices 0 and 2 only. */
  predicate HasCorners(r: Rectangle) { |r.vertices| >= 3 }

  function X(r: Rectangle): real requires HasCorners(r) { r.vertices[0].x }
  function Y(r: Rectangle): real requires HasCorners(r) { r.vertices[0].y }
  function X2(r: Rectangle): real requires HasCorners(r) { r.vertices[2].x }
  function Y2(r: Rectangle): real requires HasCorners(r) { r.vertices[2].y }
  function W(r: Rectangle): real requires HasCorners(r) { X2(r) - X(r) }
  function H(r: Rectangle): real requires HasCorners(r) { Y2(r) - Y(r) }

  function Center(r: Rectangle): Vec2
    requires HasCorners(r)
  {
    Vec2(X(r) + W(r) / 2.0, Y(r) + H(r) / 2.0)
  }

  /** `larger(n)`: moves the top-left corner out by `n` and grows the size by
      `n` (not `2n`). */
  function Larger(r: Rectangle, n: real): (q: Rectangle)
    requires HasCorners(r)
    ensures HasCorners(q)
  {
    MakeRect(X(r) - n, Y(r) - n, W(r) + n, H(r) + n)
  }

  /** `transform(m)`: every vertex through `mVec2`, in order. */
  function Transform(r: Rectangle, m: Affine): (q: Rectangle)
    ensures |q.vertices| == |r.vertices|
  {
    Rectangle(seq(|r.vertices|, i requires 0 <= i < |r.vertices| => Apply(m, r.vertices[i])))
  }

  /** `vertex_data`: the vertices' coordinates, flattened. */
  function VertexData(vs: seq<Vec2>): (r: seq<real>)
    ensures |r| == 2 * |vs|
  {
    if vs == [] then [] else [vs[0].x, vs[0].y] + VertexData(vs[1..])
  }

  /** `indices`: the two triangles of a quad. */
  const QuadIndices: seq<int> := [0, 1, 2, 0, 2, 3]

  /** `make` followed by the getters gives back the arguments; the centre is
      the midpoint of the corners. */
  lemma MakeRectReadsBack(x: real, y: real, w: real, h: real)
    ensures var r := MakeRect(x, y, w, h);
            X(r) == x && Y(r) == y && W(r) == w && H(r) == h &&
            Center(r) == Vec2(x + w / 2.0, y + h / 2.0) &&
            Center(r) == Half(Add(r.vertices[0], r.vertices[2]))
  {
  }

  /** `larger` keeps the right and bottom edges where they were. */
  lemma LargerKeepsFarEdges(r: Rectangle, n: real)
    requires HasCorners(r)
    ensures X2(Larger(r, n)) == X2(r) && Y2(Larger(r, n)) == Y2(r)
    ensures X(Larger(r, n)) == X(r) - n && Y(Larger(r, n)) == Y(r) - n
  {
  }

  /** Transforming twice is transforming once by the composed matrix. */
  lemma TransformCompose(r: Rectangle, p: Affine, m: Affine)
    ensures Transform(Transform(r, m), p) == Transform(r, Compose(p, m))
  {
    var lhs := Transform(Transform(r, m), p);
    var rhs := Transform(r, Compose(p, m));
    forall i | 0 <= i < |r.vertices|
      ensures lhs.vertices[i] == rhs.vertices[i]
    {
      ComposeApplies(p, m, r.vertices[i]);
    }
  }

  /** A translation moves a rectangle without changing its size. */
  lemma TranslateKeepsSize(r: Rectangle, x: real, y: real)
    requires HasCorners(r)
    ensures var q := Transform(r, Translated(Identity, x, y));
            X(q) == X(r) + x && Y(q) == Y(r) + y && W(q) == W(r) && H(q) == H(r)
  {
  }

  /** The flattened vertex data holds each vertex's x at `2i` and y at `2i+1`. */
  lemma {:induction false} VertexDataAt(vs: seq<Vec2>, i: nat)
    requires i < |vs|
    ensures VertexData(vs)[2 * i] == vs[i].x && VertexData(vs)[2 * i + 1] == vs[i].y
  {
    if i > 0 {
      VertexDataAt(vs[1..], i - 1);
    }
  }

  // ---------------------------------------------------------------- Quad

  /** A `Quad`: a pixel frame inside a `tw` by `th` texture. */
  datatype Quad = Quad(tw: real, th: real, pixelFrame: Rectangle)

  predicate ValidQuad(q: Quad) { q.tw != 0.0 && q.th != 0.0 && HasCorners(q.pixelFrame) }

  /** `frame`: the pixel frame through `Matrix.unit.scale(1/tw, 1/th)`. */
  function Frame(q: Quad): (f: Rectangle)
    requires ValidQuad(q)
    ensures HasCorners(f)
  {
    Transform(q.pixelFrame, Scaled(Identity, 1.0 / q.tw, 1.0 / q.th))
  }

  /** `uv_data`: the normalised frame's corners top-left, top-right,
      bottom-right, bottom-left. */
  function UvData(q: Quad): seq<real>
    requires ValidQuad(q)
  {
    var f := Frame(q);
    [X(f), Y(f), X2(f), Y(f), X2(f), Y2(f), X(f), Y2(f)]
  }

  /** `w` and `h` read the pixel frame, not the normalised one. */
  function QuadW(q: Quad): real requires ValidQuad(q) { W(q.pixelFrame) }
  function QuadH(q: Quad): real requires ValidQuad(q) { H(q.pixelFrame) }

  /** `Quad.make(tw, th, x, y, w, h)` has its UVs at the frame's corners
      divided by the texture size, while `w`, `h` stay in pixels. */
  lemma QuadMakeUv(tw: real, th: real, x: real, y: real, w: real, h: real)
    requires tw != 0.0 && th != 0.0
    ensures var q := Quad(tw, th, MakeRect(x, y, w, h));
            ValidQuad(q) &&
            UvData(q) == [x / tw, y / th, (x + w) / tw, y / th,
                          (x + w) / tw, (y + h) / th, x / tw, (y + h) / th] &&
            QuadW(q) == w && QuadH(q) == h
  {
    var q := Quad(tw, th, MakeRect(x, y, w, h));
    var f := Frame(q);
    assert X(f) == x * (1.0 / tw);
    assert X2(f) == (x + w) * (1.0 / tw);
    assert Y(f) == y * (1.0 / th);
    assert Y2(f) == (y + h) * (1.0 / th);
    assert x * (1.0 / tw) == x / tw && (x + w) * (1.0 / tw) == (x + w) / tw;
    assert y * (1.0 / th) == y / th && (y + h) * (1.0 / th) == (y + h) / th;
  }
}
