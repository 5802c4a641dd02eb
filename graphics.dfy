/** The CPU side of `src/graphics.ts`: the pool of 128-pixel atlas cells on
    the 2048-pixel drawing surface, the list of draw elements `push_el`
    collects, and the interleaved vertex and index arrays `draw` builds from
    it. The WebGL calls are not part of this model. */
module Graphics {
  import opened Common

  /** Side of the drawing surface and of one atlas cell, in pixels. */
  const AtlasSize: int := 2048
  const CellSize: int := 128

  /** An `[x, y]` atlas cell: the top-left pixel of a 128 x 128 square. */
  datatype Cell = Cell(x: int, y: int)

  /** The pool in the order the constructor builds it: `x` in the outer loop,
      `y` in the inner one. */
  function Grid(): (g: seq<Cell>)
    ensures |g| == 256
    ensures forall i :: 0 <= i < 256 ==> g[i] == Cell(CellSize * (i / 16), CellSize * (i % 16))
  {
    seq(256, i requires 0 <= i < 256 => Cell(CellSize * (i / 16), CellSize * (i % 16)))
  }

  /** The cells of the surface: both corners multiples of 128 in [0, 1920]. */
  predicate OnAtlas(c: Cell)
  {
    0 <= c.x <= AtlasSize - CellSize && c.x % CellSize == 0 &&
    0 <= c.y <= AtlasSize - CellSize && c.y % CellSize == 0
  }

  /** The fresh pool lists every cell of the surface exactly once. */
  lemma GridIsAtlas()
    ensures forall i, j :: 0 <= i < j < 256 ==> Grid()[i] != Grid()[j]
    ensures forall c :: c in Grid() <==> OnAtlas(c)
  {
    var g := Grid();
    forall i, j | 0 <= i < j < 256
      ensures g[i] != g[j]
    {
      assert i == 16 * (i / 16) + i % 16 && j == 16 * (j / 16) + j % 16;
    }
    forall c | OnAtlas(c)
      ensures c in g
    {
      var i := 16 * (c.x / CellSize) + c.y / CellSize;
      assert i / 16 == c.x / CellSize && i % 16 == c.y / CellSize;
      assert g[i] == c;
    }
  }

  /** What `Mat4.identity.translate(...).rotate(...)...` builds from the six
      placement arguments of `push_el`. `Mat4` and `Quat` are not part of
      this model, so the matrix is kept as the numbers it is built from. */
  datatype Placement = Placement(rx: real, ry: real, rz: real, x: real, y: real, z: real)

  /** `[matrix, tx, ty]`. */
  datatype DrawElement = DrawElement(matrix: Placement, tx: int, ty: int)

  /** The `vertex_data` and `indices` of `Billboard.unit.transform(matrix)`. */
  datatype Billboard = Billboard(vertexData: seq<real>, indices: seq<int>)

  /** The unit billboard is one quad: four xyz vertices and two triangles. */
  predicate QuadShaped(b: Billboard)
  {
    |b.vertexData| == 12 && |b.indices| == 6
  }

  /** An entry of a `Uint16Array`. */
  newtype u16 = x: int | 0 <= x < 0x1_0000

  /** Storing an integer into a `Uint16Array` keeps it modulo 2^16. */
  function ToU16(x: int): u16
  {
    (x % 0x1_0000) as u16
  }

  lemma SmallFitsU16(x: int)
    requires 0 <= x < 0x1_0000
    ensures ToU16(x) as int == x
  {
  }

  /** `uv_data`: the corners of the cell at `(x, y)` in texture coordinates,
      in the order top-right, top-left, bottom-left, bottom-right. */
  function UvData(x: int, y: int): (uv: seq<real>)
    ensures |uv| == 8
  {
    var s := AtlasSize as real;
    [(x + 128) as real / s, y as real / s, x as real / s, y as real / s,
     x as real / s, (y + 128) as real / s, (x + 128) as real / s, (y + 128) as real / s]
  }

  /** Cells of the atlas have texture coordinates in `[0, 1]`. */
  lemma UvOnAtlasInUnitSquare(c: Cell)
    requires OnAtlas(c)
    ensures forall k :: 0 <= k < 8 ==> 0.0 <= UvData(c.x, c.y)[k] <= 1.0
  {
  }

  /** The 20 floats one element contributes: each vertex's xyz followed by
      its uv pair. */
  function Interleave(vertexData: seq<real>, uv: seq<real>): (r: seq<real>)
    requires |vertexData| == 12 && |uv| == 8
    ensures |r| == 20
  {
    vertexData[0..3] + uv[0..2] + vertexData[3..6] + uv[2..4] +
    vertexData[6..9] + uv[4..6] + vertexData[9..12] + uv[6..8]
  }

  /** Vertex `g` owns floats `5 g .. 5 g + 5` of its element: its xyz, then
      its uv pair. */
  lemma InterleaveGroup(vertexData: seq<real>, uv: seq<real>, g: int)
    requires |vertexData| == 12 && |uv| == 8 && 0 <= g < 4
    ensures Interleave(vertexData, uv)[5 * g .. 5 * g + 5] == vertexData[3 * g .. 3 * g + 3] + uv[2 * g .. 2 * g + 2]
    ensures var r := Interleave(vertexData, uv);
            && r[5 * g] == vertexData[3 * g] && r[5 * g + 1] == vertexData[3 * g + 1]
            && r[5 * g + 2] == vertexData[3 * g + 2] && r[5 * g + 3] == uv[2 * g] && r[5 * g + 4] == uv[2 * g + 1]
  {
    var p0, p1 := vertexData[0..3] + uv[0..2], vertexData[3..6] + uv[2..4];
    var p2, p3 := vertexData[6..9] + uv[4..6], vertexData[9..12] + uv[6..8];
    assert Interleave(vertexData, uv) == p0 + p1 + p2 + p3;
    if g == 0 {
      assert (p0 + p1 + p2 + p3)[0..5] == p0;
    } else if g == 1 {
      assert (p0 + p1 + p2 + p3)[5..10] == p1;
    } else if g == 2 {
      assert (p0 + p1 + p2 + p3)[10..15] == p2;
    } else {
      assert (p0 + p1 + p2 + p3)[15..20] == p3;
    }
  }

  /** The vertex floats of one element. */
  function ElementVertices(el: DrawElement, transform: Placement -> Billboard): (r: seq<real>)
    requires QuadShaped(transform(el.matrix))
    ensures |r| == 20
  {
    Interleave(transform(el.matrix).vertexData, UvData(el.tx, el.ty))
  }

  /** The six indices of the element at position `i`, shifted by `4 * i`. */
  function ElementIndices(i: int, b: Billboard): (r: seq<u16>)
    requires QuadShaped(b)
    ensures |r| == 6
    ensures forall k :: 0 <= k < 6 ==> r[k] == ToU16(4 * i + b.indices[k])
  {
    seq(6, k requires 0 <= k < 6 => ToU16(4 * i + b.indices[k]))
  }

  predicate AllQuadShaped(els: seq<DrawElement>, transform: Placement -> Billboard)
  {
    forall i :: 0 <= i < |els| ==> QuadShaped(transform(els[i].matrix))
  }

  /** The vertex array `draw` fills: the elements' floats, in push order. */
  function VertexBuffer(els: seq<DrawElement>, transform: Placement -> Billboard): (r: seq<real>)
    requires AllQuadShaped(els, transform)
    ensures |r| == 20 * |els|
  {
    if els == [] then []
    else VertexBuffer(els[..|els| - 1], transform) + ElementVertices(els[|els| - 1], transform)
  }

  /** The index array `draw` fills. */
  function IndexBuffer(els: seq<DrawElement>, transform: Placement -> Billboard): (r: seq<u16>)
    requires AllQuadShaped(els, transform)
    ensures |r| == 6 * |els|
  {
    if els == [] then []
    else IndexBuffer(els[..|els| - 1], transform) + ElementIndices(|els| - 1, transform(els[|els| - 1].matrix))
  }

  /** Element `i` owns floats `20 i .. 20 i + 20`: its vertices' xyz
      interleaved with its cell's uv pairs. */
  lemma {:induction false} VertexBufferAt(els: seq<DrawElement>, transform: Placement -> Billboard, i: int)
    requires AllQuadShaped(els, transform) && 0 <= i < |els|
    ensures VertexBuffer(els, transform)[20 * i .. 20 * i + 20] == ElementVertices(els[i], transform)
  {
    var n := |els| - 1;
    var vb := VertexBuffer(els[..n], transform);
    assert VertexBuffer(els, transform) == vb + ElementVertices(els[n], transform);
    if i < n {
      VertexBufferAt(els[..n], transform, i);
      assert els[..n][i] == els[i];
      assert (vb + ElementVertices(els[n], transform))[20 * i .. 20 * i + 20] == vb[20 * i .. 20 * i + 20];
    } else {
      assert |vb| == 20 * i;
      assert (vb + ElementVertices(els[n], transform))[20 * i .. 20 * i + 20] == ElementVertices(els[n], transform);
    }
  }

  /** Drawing one more element appends its floats and its indices. */
  lemma BuffersGrow(els: seq<DrawElement>, transform: Placement -> Billboard, i: int)
    requires AllQuadShaped(els, transform) && 0 <= i < |els|
    ensures AllQuadShaped(els[..i], transform) && AllQuadShaped(els[..i + 1], transform)
    ensures VertexBuffer(els[..i + 1], transform)
            == VertexBuffer(els[..i], transform) + ElementVertices(els[i], transform)
    ensures IndexBuffer(els[..i + 1], transform)
            == IndexBuffer(els[..i], transform) + ElementIndices(i, transform(els[i].matrix))
  {
    assert els[..i + 1][..i] == els[..i];
  }

  /** Element `i` owns indices `6 i .. 6 i + 6`: the billboard's indices
      plus `4 i`, kept modulo 2^16. */
  lemma {:induction false} IndexBufferAt(els: seq<DrawElement>, transform: Placement -> Billboard, i: int, k: int)
    requires AllQuadShaped(els, transform) && 0 <= i < |els| && 0 <= k < 6
    ensures IndexBuffer(els, transform)[6 * i + k] == ToU16(4 * i + transform(els[i].matrix).indices[k])
  {
    var n := |els| - 1;
    var ib := IndexBuffer(els[..n], transform);
    assert IndexBuffer(els, transform) == ib + ElementIndices(n, transform(els[n].matrix));
    if i < n {
      IndexBufferAt(els[..n], transform, i, k);
      assert els[..n][i] == els[i];
    }
  }

  /** While fewer than 16384 elements are drawn, no index wraps. */
  lemma IndicesDoNotWrap(els: seq<DrawElement>, transform: Placement -> Billboard, i: int, k: int)
    requires AllQuadShaped(els, transform) && 0 <= i < |els| && 0 <= k < 6
    requires |els| <= 0x4000
    requires 0 <= transform(els[i].matrix).indices[k] < 4
    ensures IndexBuffer(els, transform)[6 * i + k] as int == 4 * i + transform(els[i].matrix).indices[k]
  {
    IndexBufferAt(els, transform, i, k);
    SmallFitsU16(4 * i + transform(els[i].matrix).indices[k]);
  }

  /** `shift()` on the pool. */
  function Shift(pool: seq<Cell>): (r: (Option<Cell>, seq<Cell>))
    ensures pool == [] ==> r == (None, [])
    ensures pool != [] ==> r.0 == Some(pool[0]) && [pool[0]] + r.1 == pool
  {
    if pool == [] then (None, []) else (Some(pool[0]), pool[1..])
  }

  /** A cell released into an empty pool is the next one borrowed. */
  lemma BorrowReturnsReleased(c: Cell)
    ensures Shift([] + [c]) == (Some(c), [])
  {
  }

  /** Borrowing a cell and releasing it again keeps the same cells in the
      pool; only their order changes. */
  lemma BorrowThenReleaseKeepsCells(pool: seq<Cell>)
    requires pool != []
    ensures multiset(Shift(pool).1 + [Shift(pool).0.value]) == multiset(pool)
    ensures |Shift(pool).1 + [Shift(pool).0.value]| == |pool|
  {
    var r := Shift(pool);
    assert pool == [r.0.value] + r.1;
  }

  /** A `Graphics` object: the cell pool and the pending draw elements. */
  class Graphics {
    var availableTextureSpaces: seq<Cell>
    var els: seq<DrawElement>

    /** The pool-building loop of the constructor. */
    constructor ()
      ensures availableTextureSpaces == Grid() && els == []
    {
      var cells: seq<Cell> := [];
      var x := 0;
      while x < AtlasSize
        invariant 0 <= x <= AtlasSize && x % CellSize == 0
        invariant |cells| == 16 * (x / CellSize)
        invariant forall i :: 0 <= i < |cells| ==> cells[i] == Grid()[i]
      {
        var y := 0;
        while y < AtlasSize
          invariant 0 <= y <= AtlasSize && y % CellSize == 0
          invariant |cells| == 16 * (x / CellSize) + y / CellSize
          invariant forall i :: 0 <= i < |cells| ==> cells[i] == Grid()[i]
        {
          ghost var n := |cells|;
          assert n / 16 == x / CellSize && n % 16 == y / CellSize;
          cells := cells + [Cell(x, y)];
          y := y + CellSize;
        }
        x := x + CellSize;
      }
      availableTextureSpaces := cells;
      els := [];
    }

    /** `borrow_texture_space()`: the first cell, or nothing when the pool
        is empty. */
    method BorrowTextureSpace() returns (cell: Option<Cell>)
      modifies this
      ensures (cell, availableTextureSpaces) == Shift(old(availableTextureSpaces))
      ensures els == old(els)
    {
      if availableTextureSpaces == [] {
        cell := None;
      } else {
        cell := Some(availableTextureSpaces[0]);
        availableTextureSpaces := availableTextureSpaces[1..];
      }
    }

    /** `release_texture_space(x, y)`. */
    method ReleaseTextureSpace(x: int, y: int)
      modifies this
      ensures availableTextureSpaces == old(availableTextureSpaces) + [Cell(x, y)]
      ensures els == old(els)
    {
      availableTextureSpaces := availableTextureSpaces + [Cell(x, y)];
    }

    /** `push_el(rx, ry, rz, x, y, z, tx, ty)`. */
    method PushEl(rx: real, ry: real, rz: real, x: real, y: real, z: real, tx: int, ty: int)
      modifies this
      ensures els == old(els) + [DrawElement(Placement(rx, ry, rz, x, y, z), tx, ty)]
      ensures availableTextureSpaces == old(availableTextureSpaces)
    {
      els := els + [DrawElement(Placement(rx, ry, rz, x, y, z), tx, ty)];
    }

    /** The buffer-building part of `draw()`: `transform` stands for
        `Billboard.unit.transform`. The pending elements are written in push
        order and then dropped. */
    method Draw(transform: Placement -> Billboard) returns (vertices: array<real>, indices: array<u16>)
      requires AllQuadShaped(els, transform)
      modifies this
      ensures fresh(vertices) && fresh(indices)
      ensures vertices[..] == VertexBuffer(old(els), transform)
      ensures indices[..] == IndexBuffer(old(els), transform)
      ensures els == [] && availableTextureSpaces == old(availableTextureSpaces)
    {
      indices := new u16[|els| * 6];
      vertices := new real[|els| * 5 * 4];
      FillBuffers(els, transform, vertices, indices);
      els := [];
    }
  }

  /** The element loop of `draw()`: each element's floats and indices
      written at its own offsets, in push order. */
  method FillBuffers(els: seq<DrawElement>, transform: Placement -> Billboard,
                     vertices: array<real>, indices: array<u16>)
    requires AllQuadShaped(els, transform)
    requires vertices.Length == 20 * |els| && indices.Length == 6 * |els|
    modifies vertices, indices
    ensures vertices[..] == VertexBuffer(els, transform)
    ensures indices[..] == IndexBuffer(els, transform)
  {
    var i := 0;
    while i < |els|
      invariant Filled(els, transform, vertices[..], indices[..], i)
    {
      FillElement(els, transform, vertices, indices, i);
      i := i + 1;
    }
    FilledEnd(els, transform, vertices[..], indices[..]);
  }

  /** The first `i` elements are in place at the front of both arrays. */
  predicate Filled(els: seq<DrawElement>, transform: Placement -> Billboard,
                   v: seq<real>, ix: seq<u16>, i: int)
    requires AllQuadShaped(els, transform)
  {
    && 0 <= i <= |els| && |v| == 20 * |els| && |ix| == 6 * |els|
    && AllQuadShaped(els[..i], transform)
    && v[..20 * i] == VertexBuffer(els[..i], transform)
    && ix[..6 * i] == IndexBuffer(els[..i], transform)
  }

  /** Writing element `i` after `i` filled elements fills `i + 1`. */
  lemma FilledStep(els: seq<DrawElement>, transform: Placement -> Billboard,
                   v: seq<real>, ix: seq<u16>, v': seq<real>, ix': seq<u16>, i: int)
    requires AllQuadShaped(els, transform) && Filled(els, transform, v, ix, i) && i < |els|
    requires |v'| == |v| && v'[..20 * i] == v[..20 * i]
    requires v'[20 * i .. 20 * i + 20] == ElementVertices(els[i], transform)
    requires |ix'| == |ix| && ix'[..6 * i] == ix[..6 * i]
    requires ix'[6 * i .. 6 * i + 6] == ElementIndices(i, transform(els[i].matrix))
    ensures Filled(els, transform, v', ix', i + 1)
  {
    BuffersGrow(els, transform, i);
    assert v'[..20 * i + 20] == v'[..20 * i] + v'[20 * i .. 20 * i + 20];
    assert ix'[..6 * i + 6] == ix'[..6 * i] + ix'[6 * i .. 6 * i + 6];
  }

  /** All elements filled: the arrays are the two buffers. */
  lemma FilledEnd(els: seq<DrawElement>, transform: Placement -> Billboard, v: seq<real>, ix: seq<u16>)
    requires AllQuadShaped(els, transform) && Filled(els, transform, v, ix, |els|)
    ensures v == VertexBuffer(els, transform) && ix == IndexBuffer(els, transform)
  {
    assert els[..|els|] == els;
    assert v[..|v|] == v && ix[..|ix|] == ix;
  }

  /** One turn of the element loop: element `i` written after the `i`
      elements before it. */
  method FillElement(els: seq<DrawElement>, transform: Placement -> Billboard,
                     vertices: array<real>, indices: array<u16>, i: nat)
    requires AllQuadShaped(els, transform) && i < |els|
    requires Filled(els, transform, vertices[..], indices[..], i)
    modifies vertices, indices
    ensures Filled(els, transform, vertices[..], indices[..], i + 1)
  {
    ghost var v, ix := vertices[..], indices[..];
    var el := els[i];
    var uv := UvData(el.tx, el.ty);
    var b := transform(el.matrix);
    WriteVertices(vertices, 20 * i, b.vertexData, uv);
    WriteIndices(indices, 6 * i, i, b);
    FilledStep(els, transform, v, ix, vertices[..], indices[..], i);
  }

  /** The `k += 3` loop of one element: xyz then uv, four times, from
      `vertices[at]` on. */
  method WriteVertices(vertices: array<real>, at: int, vertexData: seq<real>, uv: seq<real>)
    requires |vertexData| == 12 && |uv| == 8 && 0 <= at && at + 20 <= vertices.Length
    modifies vertices
    ensures vertices[at..at + 20] == Interleave(vertexData, uv)
    ensures vertices[..at] == old(vertices[..at])
  {
    ghost var r := Interleave(vertexData, uv);
    var aIndex := at;
    var k := 0;
    ghost var g := 0;
    while k < |vertexData|
      invariant 0 <= g <= 4 && k == 3 * g && aIndex == at + 5 * g
      invariant forall j :: at <= j < aIndex ==> vertices[j] == r[j - at]
      invariant vertices[..at] == old(vertices[..at])
    {
      InterleaveGroup(vertexData, uv, g);
      ThirdOfTriple(g);
      ghost var prev := vertices[..];
      WriteVertex(vertices, aIndex, vertexData, uv, k);
      forall j | at <= j < aIndex + 5
        ensures vertices[j] == r[j - at]
      {
        if j < aIndex {
          assert vertices[j] == prev[j];
        }
      }
      aIndex := aIndex + 5;
      k := k + 3;
      g := g + 1;
    }
  }

  /** One turn of the `k += 3` loop: the xyz of coordinate `k` and its uv
      pair, at `vertices[at .. at + 5]`. */
  method WriteVertex(vertices: array<real>, at: int, vertexData: seq<real>, uv: seq<real>, k: int)
    requires 0 <= k && k + 3 <= |vertexData| && k / 3 * 2 + 2 <= |uv|
    requires 0 <= at && at + 5 <= vertices.Length
    modifies vertices
    ensures vertices[at] == vertexData[k] && vertices[at + 1] == vertexData[k + 1]
    ensures vertices[at + 2] == vertexData[k + 2]
    ensures vertices[at + 3] == uv[k / 3 * 2] && vertices[at + 4] == uv[k / 3 * 2 + 1]
    ensures forall j :: 0 <= j < at ==> vertices[j] == old(vertices[j])
  {
    vertices[at] := vertexData[k];
    vertices[at + 1] := vertexData[k + 1];
    vertices[at + 2] := vertexData[k + 2];
    vertices[at + 3] := uv[k / 3 * 2];
    vertices[at + 4] := uv[k / 3 * 2 + 1];
  }

  /** `k / 3 * 2` on the `k`-th coordinate, `k = 3 g`, is `2 g`. */
  lemma ThirdOfTriple(g: int)
    requires g >= 0
    ensures 3 * g / 3 * 2 == 2 * g
  {
  }

  /** The index loop of the element at position `i`, from `indices[at]` on. */
  method WriteIndices(indices: array<u16>, at: int, i: int, b: Billboard)
    requires QuadShaped(b) && 0 <= at && at + 6 <= indices.Length
    modifies indices
    ensures indices[at..at + 6] == ElementIndices(i, b)
    ensures indices[..at] == old(indices[..at])
  {
    var k := 0;
    while k < |b.indices|
      invariant 0 <= k <= 6
      invariant forall j :: 0 <= j < k ==> indices[at + j] == ToU16(4 * i + b.indices[j])
      invariant indices[..at] == old(indices[..at])
    {
      indices[at + k] := ToU16(i * 4 + b.indices[k]);
      k := k + 1;
    }
  }
}
