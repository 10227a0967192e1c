/** The integer part of the viewer (`Ak::KinectWidget`): the index buffers
    of the sphere drawn at each joint and of the cylinder drawn along each
    bone, and the viewport that `resizeGL` fits into the window. Vertex
    positions and normals are floats computed with `sinf`/`cosf`; here a
    vertex is named by where it sits on the mesh (a pole, or a step along
    a ring), which is all the index buffer refers to. */
module KinectWidget {

  // ---------------------------------------------------------------------
  // Meshes

  /** A mesh vertex: one of the two poles (0 the first one emitted, 1 the
      last), or step `step` of ring `ring`. */
  datatype Vertex = Pole(end: nat) | Ring(ring: nat, step: nat)

  /** The first `k` steps of ring `ring`. */
  function Row(ring: nat, k: nat): (r: seq<Vertex>)
    ensures |r| == k && forall j :: 0 <= j < k ==> r[j] == Ring(ring, j)
  {
    if k == 0 then [] else Row(ring, k - 1) + [Ring(ring, k - 1)]
  }

  /** The first `n` rings of `u` steps each, ring by ring. */
  function Grid(n: nat, u: nat): (g: seq<Vertex>)
    ensures |g| == n * u
  {
    if n == 0 then [] else Grid(n - 1, u) + Row(n - 1, u)
  }

  /** Ring `i`, step `j` of a grid sits at position `i * u + j`. */
  lemma {:induction false} GridAt(n: nat, u: nat, i: nat, j: nat)
    requires i < n && j < u
    ensures i * u + j < n * u && Grid(n, u)[i * u + j] == Ring(i, j)
  {
    if i < n - 1 {
      GridAt(n - 1, u, i, j);
      assert i * u + j < (n - 1) * u;
    } else {
      assert i * u + j == (n - 1) * u + j;
    }
  }

  /** The step after `j` round a ring of `u` steps, counted from 1: the
      last step wraps round to the first. */
  function Next(j: nat, u: nat): (r: nat)
    requires 1 <= j <= u
    ensures 1 <= r <= u
    ensures r == j + 1 || (j == u && r == 1)
  {
    if j + 1 > u then 1 else j + 1
  }

  /** The fan round the first pole (vertex 0) over the first ring, for
      steps 1 to `k`: one triangle (pole, next step, step) each. */
  function TopFan(u: nat, k: nat): (f: seq<nat>)
    requires k <= u
    ensures |f| == 3 * k
  {
    if k == 0 then [] else TopFan(u, k - 1) + [0, Next(k, u), k]
  }

  /** The quads between the ring that starts after vertex `base` and the
      ring after it, for steps 1 to `k`: two triangles each, the second
      re-using two indices of the first. */
  function Quads(u: nat, base: nat, k: nat): (q: seq<nat>)
    requires k <= u
    ensures |q| == 6 * k
  {
    if k == 0 then []
    else
      var a, b, c := k + base, Next(k, u) + base, k + base + u;
      Quads(u, base, k - 1) + [a, b, c, b, Next(k, u) + base + u, c]
  }

  /** The fan round the last pole `last` over the ring that starts after
      vertex `base`, for steps 1 to `k`. */
  function BottomFan(u: nat, base: nat, last: nat, k: nat): (f: seq<nat>)
    requires k <= u
    ensures |f| == 3 * k
  {
    if k == 0 then [] else BottomFan(u, base, last, k - 1) + [k + base, Next(k, u) + base, last]
  }

  /** Every index of a piece of the buffer is below `bound`. */
  predicate Below(indices: seq<nat>, bound: nat) {
    forall k :: 0 <= k < |indices| ==> indices[k] < bound
  }

  lemma {:induction false} TopFanBelow(u: nat, k: nat)
    requires k <= u
    ensures Below(TopFan(u, k), u + 1)
  {
    if k > 0 {
      TopFanBelow(u, k - 1);
    }
  }

  lemma {:induction false} QuadsBelow(u: nat, base: nat, k: nat)
    requires k <= u
    ensures Below(Quads(u, base, k), base + 2 * u + 1)
  {
    if k > 0 {
      QuadsBelow(u, base, k - 1);
    }
  }

  lemma {:induction false} BottomFanBelow(u: nat, base: nat, last: nat, k: nat)
    requires k <= u
    ensures Below(BottomFan(u, base, last, k), if last < base + u then base + u + 1 else last + 1)
  {
    if k > 0 {
      BottomFanBelow(u, base, last, k - 1);
    }
  }

  lemma BelowConcat(a: seq<nat>, b: seq<nat>, bound: nat)
    requires Below(a, bound) && Below(b, bound)
    ensures Below(a + b, bound)
  {
    assert forall k :: |a| <= k < |a| + |b| ==> (a + b)[k] == b[k - |a|];
  }

  lemma BelowWeaken(a: seq<nat>, bound: nat, larger: nat)
    requires Below(a, bound) && bound <= larger
    ensures Below(a, larger)
  {
  }

  /** Appending the steps of one ring: the inner loop of each ring of
      vertices. */
  method AppendRow(vertices: seq<Vertex>, ring: nat, u: nat) returns (r: seq<Vertex>)
    ensures r == vertices + Row(ring, u)
  {
    r := vertices;
    for j := 0 to u
      invariant r == vertices + Row(ring, j)
    {
      r := r + [Ring(ring, j)];
    }
  }

  /** Appending the top fan ("Create top"). */
  method AppendTopFan(indices: seq<nat>, u: nat) returns (r: seq<nat>)
    ensures r == indices + TopFan(u, u)
  {
    r := indices;
    for j := 1 to u + 1
      invariant r == indices + TopFan(u, j - 1)
    {
      r := r + [0];
      r := r + [if j + 1 > u then 1 else j + 1];
      r := r + [j];
    }
  }

  /** Appending one band of quads ("Create inner triangles", inner loop). */
  method AppendQuads(indices: seq<nat>, u: nat, base: nat) returns (r: seq<nat>)
    ensures r == indices + Quads(u, base, u)
  {
    r := indices;
    for j := 1 to u + 1
      invariant r == indices + Quads(u, base, j - 1)
    {
      r := AppendQuad(r, u, base, j);
    }
  }

  /** One quad of a band: its second triangle reads back the entries two
      and three from the end of the buffer. */
  method AppendQuad(indices: seq<nat>, u: nat, base: nat, j: nat) returns (r: seq<nat>)
    requires 1 <= j <= u
    ensures r == indices + [j + base, Next(j, u) + base, j + base + u, Next(j, u) + base, Next(j, u) + base + u, j + base + u]
  {
    r := indices + [j + base];
    var index := if j + 1 > u then 1 else j + 1;
    r := r + [index + base];
    r := r + [j + base + u];
    r := r + [r[|r| - 2]];
    r := r + [index + base + u];
    r := r + [r[|r| - 3]];
  }

  /** Appending the bottom fan ("Create bottom"). */
  method AppendBottomFan(indices: seq<nat>, u: nat, base: nat, last: nat) returns (r: seq<nat>)
    ensures r == indices + BottomFan(u, base, last, u)
  {
    r := indices;
    for j := 1 to u + 1
      invariant r == indices + BottomFan(u, base, last, j - 1)
    {
      r := r + [j + base];
      var index := if j + 1 > u then 1 else j + 1;
      r := r + [index + base];
      r := r + [last];
    }
  }

  // ---------------------------------------------------------------------
  // The sphere

  /** The sphere's vertices: the top pole, `tessV - 1` rings of latitude
      with `tessU` steps each, and the bottom pole. */
  function SphereVertices(tessU: nat, tessV: nat): seq<Vertex>
    requires tessV >= 1
  {
    [Pole(0)] + Grid(tessV - 1, tessU) + [Pole(1)]
  }

  /** The index of the vertex before ring `i` of a grid of `u` steps, less
      the leading pole: `i * u`. */
  function Offset(i: nat, u: nat): nat {
    i * u
  }

  /** The quad bands between consecutive rings of latitude, for the first
      `n` ring pairs. */
  function Bands(u: nat, n: nat): seq<nat> {
    if n == 0 then [] else Bands(u, n - 1) + Quads(u, Offset(n - 1, u), u)
  }

  lemma {:induction false} BandsLength(u: nat, n: nat)
    ensures |Bands(u, n)| == 6 * u * n
  {
    if n > 0 {
      BandsLength(u, n - 1);
      assert 6 * u * n == 6 * u * (n - 1) + 6 * u;
    }
  }

  /** The sphere's index buffer: the top fan, the bands, the bottom fan. */
  function SphereIndices(tessU: nat, tessV: nat): seq<nat>
    requires tessV >= 2
  {
    TopFan(tessU, tessU) + Bands(tessU, tessV - 2) +
    BottomFan(tessU, Offset(tessV - 2, tessU), Offset(tessV - 1, tessU) + 1, tessU)
  }

  lemma {:induction false} BandsBelow(u: nat, n: nat)
    ensures Below(Bands(u, n), Offset(n, u) + u + 1)
  {
    if n > 0 {
      var base := Offset(n - 1, u);
      assert base + u == Offset(n, u);
      BandsBelow(u, n - 1);
      QuadsBelow(u, base, u);
      BelowWeaken(Bands(u, n - 1), base + u + 1, base + 2 * u + 1);
      BelowConcat(Bands(u, n - 1), Quads(u, base, u), base + 2 * u + 1);
    }
  }

  /** `generateSphere`: the vertices ring by ring, then the top fan, the
      bands between rings and the bottom fan. It returns `numIndices`,
      computed up front as `6 tessU + 6 tessU (tessV - 2)`. */
  method GenerateSphere(tessU: nat, tessV: nat) returns (vertices: seq<Vertex>, indices: seq<nat>, numIndices: nat)
    requires tessU >= 1 && tessV >= 2
    ensures vertices == SphereVertices(tessU, tessV) && indices == SphereIndices(tessU, tessV)
    ensures numIndices == tessU * 6 + tessU * (tessV - 2) * 6
  {
    var numVertices := tessU * (tessV - 1) + 2;
    numIndices := tessU * 6 + tessU * (tessV - 2) * 6;
    assert numVertices == Offset(tessV - 1, tessU) + 2;
    vertices := SphereVertexBuffer(tessU, tessV);
    indices := SphereIndexBuffer(tessU, tessV, numVertices);
  }

  /** The vertex part of `generateSphere`: the top pole, the rings of
      latitude from the top down, the bottom pole. */
  method SphereVertexBuffer(tessU: nat, tessV: nat) returns (vertices: seq<Vertex>)
    requires tessV >= 2
    ensures vertices == SphereVertices(tessU, tessV)
  {
    vertices := [Pole(0)];
    for i := 0 to tessV - 1
      invariant vertices == [Pole(0)] + Grid(i, tessU)
    {
      vertices := AppendRow(vertices, i, tessU);
    }
    vertices := vertices + [Pole(1)];
  }

  /** The index part of `generateSphere`, with the vertex count computed
      up front. */
  method SphereIndexBuffer(tessU: nat, tessV: nat, numVertices: nat) returns (indices: seq<nat>)
    requires tessV >= 2 && numVertices == Offset(tessV - 1, tessU) + 2
    ensures indices == SphereIndices(tessU, tessV)
  {
    var bands := tessV - 2;
    var base := Offset(bands, tessU);
    var last := numVertices - 1;
    indices := AppendTopFan([], tessU);
    indices := AppendBands(indices, tessU, bands);
    indices := AppendBottomFan(indices, tessU, base, last);
  }

  /** The loop over the rings of latitude that appends the bands of
      quads between them. */
  method AppendBands(indices: seq<nat>, u: nat, n: nat) returns (r: seq<nat>)
    ensures r == indices + Bands(u, n)
  {
    r := indices;
    for i := 0 to n
      invariant r == indices + Bands(u, i)
    {
      var base := Offset(i, u);
      assert Bands(u, i + 1) == Bands(u, i) + Quads(u, base, u);
      r := AppendQuads(r, u, base);
    }
  }

  /** The sphere has `tessU (tessV - 1) + 2` vertices, its index buffer is
      as long as the count `generateSphere` returns, and every index names
      one of its vertices. */
  lemma SphereShape(tessU: nat, tessV: nat)
    requires tessU >= 1 && tessV >= 2
    ensures |SphereVertices(tessU, tessV)| == tessU * (tessV - 1) + 2
    ensures |SphereIndices(tessU, tessV)| == tessU * 6 + tessU * (tessV - 2) * 6
    ensures Below(SphereIndices(tessU, tessV), |SphereVertices(tessU, tessV)|)
  {
    var u, v := tessU, tessV;
    assert (v - 1) * u == u * (v - 1);
    BandsLength(u, v - 2);
    assert 6 * u * (v - 2) == u * (v - 2) * 6;
    SphereIndicesBelow(u, v);
  }

  lemma SphereIndicesBelow(u: nat, v: nat)
    requires u >= 1 && v >= 2
    ensures Below(SphereIndices(u, v), u * (v - 1) + 2)
  {
    var base := Offset(v - 2, u);
    var last := Offset(v - 1, u) + 1;
    var bound := last + 1;
    assert base + u == last - 1 == u * (v - 1);
    TopFanBelow(u, u);
    BelowWeaken(TopFan(u, u), u + 1, bound);
    BandsBelow(u, v - 2);
    BelowWeaken(Bands(u, v - 2), base + u + 1, bound);
    BottomFanBelow(u, base, last, u);
    BelowConcat(TopFan(u, u), Bands(u, v - 2), bound);
    BelowConcat(TopFan(u, u) + Bands(u, v - 2), BottomFan(u, base, last, u), bound);
  }

  /** Vertex `1 + i tessU + j` of the sphere is step `j` of ring `i`: the
      index arithmetic of the fans and bands walks the rings. */
  lemma SphereVertexAt(tessU: nat, tessV: nat, i: nat, j: nat)
    requires tessV >= 2 && i < tessV - 1 && j < tessU
    ensures 1 + i * tessU + j < |SphereVertices(tessU, tessV)| - 1
    ensures SphereVertices(tessU, tessV)[1 + i * tessU + j] == Ring(i, j)
  {
    GridAt(tessV - 1, tessU, i, j);
  }

  // ---------------------------------------------------------------------
  // The cylinder

  /** The cylinder's vertices: the top centre, the top rim (ring 0), the
      two rings of the side (1 and 2), the bottom rim (3), the bottom
      centre. */
  function CylinderVertices(tessU: nat): seq<Vertex> {
    [Pole(0)] + Grid(4, tessU) + [Pole(1)]
  }

  /** The cylinder's index buffer: the top fan, one band of quads between
      the side rings, the bottom fan. */
  function CylinderIndices(tessU: nat): seq<nat> {
    TopFan(tessU, tessU) + Quads(tessU, tessU, tessU) + BottomFan(tessU, 3 * tessU, 4 * tessU + 1, tessU)
  }

  /** `generateCylinder`: the four rings of vertices between the two
      centres, then the top fan, the side quads and the bottom fan. It
      returns `numIndices`, computed up front as `12 tessU`. */
  method GenerateCylinder(tessU: nat) returns (vertices: seq<Vertex>, indices: seq<nat>, numIndices: nat)
    requires tessU >= 1
    ensures vertices == CylinderVertices(tessU) && indices == CylinderIndices(tessU)
    ensures numIndices == tessU * 6 + tessU * 6
  {
    var numVertices := tessU * 4 + 2;
    numIndices := tessU * 6 + tessU * 6;
    vertices := CylinderVertexBuffer(tessU);
    indices := CylinderIndexBuffer(tessU, numVertices);
  }

  /** The vertex part of `generateCylinder`: the top centre, the top rim,
      the two side rings, the bottom rim, the bottom centre. */
  method CylinderVertexBuffer(tessU: nat) returns (vertices: seq<Vertex>)
    ensures vertices == CylinderVertices(tessU)
  {
    vertices := AppendRow([Pole(0)], 0, tessU);
    for i := 0 to 2
      invariant vertices == [Pole(0)] + Grid(i + 1, tessU)
    {
      vertices := AppendRow(vertices, i + 1, tessU);
    }
    vertices := AppendRow(vertices, 3, tessU);
    vertices := vertices + [Pole(1)];
  }

  /** The index part of `generateCylinder`, with the vertex count computed
      up front. */
  method CylinderIndexBuffer(tessU: nat, numVertices: nat) returns (indices: seq<nat>)
    requires numVertices == tessU * 4 + 2
    ensures indices == CylinderIndices(tessU)
  {
    indices := AppendTopFan([], tessU);
    indices := AppendQuads(indices, tessU, tessU);
    indices := AppendBottomFan(indices, tessU, 3 * tessU, numVertices - 1);
  }

  /** The cylinder has `4 tessU + 2` vertices and `12 tessU` indices, and
      every index names one of its vertices. */
  lemma CylinderShape(tessU: nat)
    requires tessU >= 1
    ensures |CylinderVertices(tessU)| == 4 * tessU + 2
    ensures |CylinderIndices(tessU)| == 12 * tessU
    ensures Below(CylinderIndices(tessU), |CylinderVertices(tessU)|)
  {
    var u := tessU;
    var bound := 4 * u + 2;
    TopFanBelow(u, u);
    BelowWeaken(TopFan(u, u), u + 1, bound);
    QuadsBelow(u, u, u);
    BelowWeaken(Quads(u, u, u), 3 * u + 1, bound);
    BottomFanBelow(u, 3 * u, 4 * u + 1, u);
    BelowConcat(TopFan(u, u), Quads(u, u, u), bound);
    BelowConcat(TopFan(u, u) + Quads(u, u, u), BottomFan(u, 3 * u, 4 * u + 1, u), bound);
  }

  // ---------------------------------------------------------------------
  // The viewport

  /** `heightRatio`, and `widthRatio` for colour and for depth or IR. */
  const HeightRatio: nat := 9
  const ColourWidthRatio: nat := 16
  const DepthWidthRatio: nat := 10

  /** The width ratio of the shown image: 16:9 for colour, 10:9 otherwise. */
  function WidthRatio(colourImage: bool): nat {
    if colourImage then ColourWidthRatio else DepthWidthRatio
  }

  /** One turn of the fit loop: each side is rescaled from the other, and
      the side that is too long for the ratio takes its rescaled length. */
  function FitStep(w: nat, h: nat, ratio: nat): (nat, nat)
    requires ratio > 0
  {
    var widthScale := (h * ratio) / HeightRatio;
    var heightScale := (w * HeightRatio) / ratio;
    var widthOffset := if heightScale >= h then widthScale else w;
    var heightOffset := if widthScale >= w then heightScale else h;
    (widthOffset, heightOffset)
  }

  /** A turn never lengthens a side, and while the sides are not in the
      ratio it shortens one of them. */
  lemma FitStepShrinks(w: nat, h: nat, ratio: nat)
    requires ratio > 0
    ensures FitStep(w, h, ratio).0 <= w && FitStep(w, h, ratio).1 <= h
    ensures w * HeightRatio != h * ratio ==> FitStep(w, h, ratio).0 + FitStep(w, h, ratio).1 < w + h
  {
    var x, y := w * HeightRatio, h * ratio;
    var widthScale, heightScale := y / HeightRatio, x / ratio;
    DivBounds(x, ratio);
    DivBounds(y, HeightRatio);
    if heightScale >= h {
      // the window is at least as wide as the ratio: the width is cut
      MulLeft(ratio, h, heightScale);
      assert y <= x;
    } else {
      // the window is taller than the ratio: the height is cut
      MulLeft(ratio, heightScale + 1, h);
      assert x < y;
    }
  }

  lemma DivBounds(a: nat, d: nat)
    requires d > 0
    ensures d * (a / d) <= a < d * (a / d) + d
  {
  }

  lemma MulLeft(k: nat, a: nat, b: nat)
    requires a <= b
    ensures k * a <= k * b
  {
  }

  /** The fit loop of `resizeGL`: starting from the window, shrink a side
      at a time until width : height is exactly the ratio. Each turn that
      does not reach the ratio shortens a side, so the sum of the sides
      bounds the number of turns. */
  method Fit(width: nat, height: nat, ratio: nat) returns (newWidth: nat, newHeight: nat)
    requires ratio > 0
    ensures newWidth * HeightRatio == newHeight * ratio
    ensures newWidth <= width && newHeight <= height
  {
    newWidth, newHeight := width, height;
    FitStepShrinks(newWidth, newHeight, ratio);
    newWidth, newHeight := FitStep(newWidth, newHeight, ratio).0, FitStep(newWidth, newHeight, ratio).1;
    while newWidth * HeightRatio - newHeight * ratio != 0
      invariant newWidth <= width && newHeight <= height
      decreases newWidth + newHeight
    {
      FitStepShrinks(newWidth, newHeight, ratio);
      var widthScale := (newHeight * ratio) / HeightRatio;
      var heightScale := (newWidth * HeightRatio) / ratio;
      var widthOffset := if heightScale >= newHeight then widthScale else newWidth;
      var heightOffset := if widthScale >= newWidth then heightScale else newHeight;
      newWidth, newHeight := widthOffset, heightOffset;
    }
  }

  /** A fitted viewport is a whole multiple of the ratio: `k` times 16 x 9
      for colour, `k` times 10 x 9 otherwise. */
  lemma FitIsMultiple(w: nat, h: nat, colourImage: bool)
    requires w * HeightRatio == h * WidthRatio(colourImage)
    ensures h % HeightRatio == 0 && w == WidthRatio(colourImage) * (h / HeightRatio)
  {
  }

  class Widget {
    /** `m_colourImage`: the colour image is shown */
    var colourImage: bool
    /** `m_viewportX`, `m_viewportY`, `m_viewportW` and `m_viewportH` */
    var viewportX: int
    var viewportY: int
    var viewportW: int
    var viewportH: int

    /** The defaults: colour off, an empty viewport at the origin. */
    constructor ()
      ensures !colourImage && viewportX == 0 && viewportY == 0 && viewportW == 0 && viewportH == 0
    {
      colourImage := false;
      viewportX, viewportY, viewportW, viewportH := 0, 0, 0, 0;
    }

    /** `resizeGL`: the largest viewport the fit loop finds in the window,
        in the ratio of the shown image and centred. */
    method ResizeGL(width: nat, height: nat)
      modifies this`viewportX, this`viewportY, this`viewportW, this`viewportH
      ensures viewportW * HeightRatio == viewportH * WidthRatio(colourImage)
      ensures 0 <= viewportW <= width && 0 <= viewportH <= height
      ensures viewportX == (width - viewportW) / 2 && viewportY == (height - viewportH) / 2
      ensures 0 <= viewportX && 2 * viewportX + viewportW <= width <= 2 * viewportX + viewportW + 1
      ensures 0 <= viewportY && 2 * viewportY + viewportH <= height <= 2 * viewportY + viewportH + 1
    {
      var newWidth, newHeight := Fit(width, height, WidthRatio(colourImage));
      viewportX := (width - newWidth) / 2;
      viewportY := (height - newHeight) / 2;
      viewportW := newWidth;
      viewportH := newHeight;
    }

    /** The image part of `setRenderOptions`: choosing whether colour is
        shown refits the viewport to the new ratio. */
    method SetColourImage(colourImage: bool, width: nat, height: nat)
      modifies this`colourImage, this`viewportX, this`viewportY, this`viewportW, this`viewportH
      ensures this.colourImage == colourImage
      ensures viewportW * HeightRatio == viewportH * WidthRatio(colourImage)
      ensures 0 <= viewportW <= width && 0 <= viewportH <= height
    {
      this.colourImage := colourImage;
      ResizeGL(width, height);
    }
  }
}
