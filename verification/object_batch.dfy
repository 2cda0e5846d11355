/** `ObjectBatch` (src/renderer/ObjectBatch.hpp, .cpp): turns each unpacked
    sprite into vertices and indices, a quad or the triangles of its convex
    mesh, placed relative to the owning object's start position.

    The texture lookup is the set of sheets the renderer loaded an image
    for, and the texture-coordinate factor (content scale over texture size)
    is a per-sheet input. */
module ObjectBatches {
  import opened Wrappers
  import opened Geometry
  import opened ConvexPolygons
  import opened ConvexLists
  import opened SpriteMeshes
  import opened SpriteUnpackers

  /** Reserved colour channels of the game. */
  const COLOR_CHANNEL_LBG: int := 1007
  const COLOR_CHANNEL_BLACK: int := 1010

  const VERTICES_PER_QUAD: int := 4
  const INDICES_PER_QUAD: int := 6

  /** Sheet number of `SpriteSheet::COUNT`. */
  const SHEET_COUNT: int := 9

  /** The sheets `Renderer::init` loads an image for: GAME_1, GAME_2, FIRE,
      GLOW, PIXEL and PARTICLE. */
  const LOADED_SHEETS: set<int> := {0, 1, 3, 5, 6, 8}

  /** `spriteSheetFilter` left at `(SpriteSheet)-1`: no filter. */
  const NO_FILTER: int := -1

  /** A colour-channel attribute: the channel id and the "is detail" bit. */
  datatype ColorChannel = ColorChannel(id: int, detail: bool)

  /** `SpriteVertexTransforms`: a sprite's quad as a corner and two edge
      vectors, in position and in texture space. */
  datatype VertexTransforms = VertexTransforms(
    posBottomLeft: Vec2, posRight: Vec2, posUp: Vec2,
    texBottomLeft: Vec2, texRight: Vec2, texUp: Vec2)

  function ZeroTransforms(): VertexTransforms {
    var z := Vec2(0.0, 0.0);
    VertexTransforms(z, z, z, z, z, z)
  }

  /** `ObjectVertex`, without the shader-sprite attribute the batch never
      writes. */
  datatype Vertex = Vertex(positionOffset: Vec2, texCoord: Vec2, srbIndex: nat, channel: ColorChannel, sheet: int)

  /** What the batch reads of a game object. */
  datatype BatchObject = BatchObject(
    sprites: ObjectSprites,
    startPosition: Vec2,
    srbIndex: nat,
    mainColorId: int,
    detailColorId: int,
    isObjectBlack: bool,
    isColorSpriteBlack: bool,
    glowColorIsLBG: bool)

  /** The `currentSprite...` members set by `prepareSpriteMeshWrite`. */
  datatype Current = Current(
    transforms: VertexTransforms,
    startPosition: Vec2,
    srbIndex: nat,
    channel: ColorChannel,
    sheet: int,
    vertexIndex: nat)

  /** The batch while writing, and the counts recorded by `finishWriting`. */
  datatype Batch = Batch(
    vertices: seq<Vertex>,
    indices: seq<int>,
    current: Current,
    filter: int,
    vertexCount: nat,
    indexCount: nat)

  /** `getSpriteSheetTexture` returns a texture. */
  predicate HasTexture(sheet: int) {
    0 <= sheet < SHEET_COUNT && sheet in LOADED_SHEETS
  }

  function Mul(v: Vec2, f: Vec2): Vec2 {
    Vec2(v.x * f.x, v.y * f.y)
  }

  // ---------------------------------------------------------------------
  // getSpriteVertexTransform

  /** The corner and edges of the quad before flipping. */
  function PositionQuad(s: Sprite, t: Affine): (Vec2, Vec2, Vec2) {
    (Apply(s.offsetPosition, t), Scale(Vec2(t.a, t.b), s.crop.width), Scale(Vec2(t.c, t.d), s.crop.height))
  }

  /** Flipping along one edge starts from the opposite corner and walks the
      edge backwards. */
  function Flip(corner: Vec2, edge: Vec2, flip: bool): (Vec2, Vec2) {
    if flip then (Add(corner, edge), Neg(edge)) else (corner, edge)
  }

  /** `getSpriteVertexTransform`: all zero when the sheet has no texture;
      otherwise a horizontal flip reverses the right edge and starts from
      the right-hand corner, a vertical flip reverses the up edge and
      starts from the top corner. */
  function SpriteVertexTransform(s: Sprite, t: Affine, sheet: int, texScale: int -> Vec2): (r: VertexTransforms)
    ensures !HasTexture(sheet) ==> r == ZeroTransforms()
    ensures HasTexture(sheet) ==> var (bl, right, up) := PositionQuad(s, t);
      && r.posRight == (if s.flipX then Neg(right) else right)
      && r.posUp == (if s.flipY then Neg(up) else up)
      && r.posBottomLeft == Add(Add(bl, if s.flipX then right else Vec2(0.0, 0.0)), if s.flipY then up else Vec2(0.0, 0.0))
  {
    if !HasTexture(sheet) then ZeroTransforms()
    else
      var (bl, right, up) := PositionQuad(s, t);
      var (texBl, texRight, texUp) :=
        if !s.rotated then
          (Vec2(s.crop.origin.x, s.crop.origin.y + s.crop.height), Vec2(s.crop.width, 0.0), Vec2(0.0, -s.crop.height))
        else
          (Vec2(s.crop.origin.x, s.crop.origin.y), Vec2(0.0, s.crop.width), Vec2(s.crop.height, 0.0));
      var (bl1, right1) := Flip(bl, right, s.flipX);
      var (bl2, up1) := Flip(bl1, up, s.flipY);
      var f := texScale(sheet);
      VertexTransforms(bl2, right1, up1, Mul(texBl, f), Mul(texRight, f), Mul(texUp, f))
  }

  /** The four corners of a position quad. */
  function Corners(bl: Vec2, right: Vec2, up: Vec2): set<Vec2> {
    {bl, Add(bl, right), Add(bl, up), Add(Add(bl, right), up)}
  }

  /** Flipping an edge keeps the set of corners. */
  lemma FlipKeepsCorners(bl: Vec2, right: Vec2, up: Vec2, flipX: bool, flipY: bool)
    ensures var (bl1, right1) := Flip(bl, right, flipX);
      var (bl2, up1) := Flip(bl1, up, flipY);
      Corners(bl2, right1, up1) == Corners(bl, right, up)
  {
    var (bl1, right1) := Flip(bl, right, flipX);
    var (bl2, up1) := Flip(bl1, up, flipY);
    assert Corners(bl1, right1, up) == Corners(bl, right, up) by {
      if flipX {
        assert Add(Add(bl, right), Neg(right)) == bl;
        assert Add(Add(Add(bl, right), Neg(right)), up) == Add(bl, up);
      }
    }
    if flipY {
      assert Add(Add(bl1, up), Neg(up)) == bl1;
      assert Add(Add(Add(bl1, up), right1), Neg(up)) == Add(bl1, right1);
    }
  }

  /** A flipped sprite covers the same quad as the unflipped one. */
  lemma FlippedSpriteSameCorners(s: Sprite, t: Affine, sheet: int, texScale: int -> Vec2)
    requires HasTexture(sheet)
    ensures var r, u := SpriteVertexTransform(s, t, sheet, texScale),
      SpriteVertexTransform(s.(flipX := false, flipY := false), t, sheet, texScale);
      Corners(r.posBottomLeft, r.posRight, r.posUp) == Corners(u.posBottomLeft, u.posRight, u.posUp)
  {
    var (bl, right, up) := PositionQuad(s, t);
    FlipKeepsCorners(bl, right, up, s.flipX, s.flipY);
  }

  // ---------------------------------------------------------------------
  // prepareSpriteMeshWrite

  /** The colour channel of a sprite: the detail channel for DETAIL, the
      main channel otherwise; BLACK when the sprite is black; LBG for a glow
      sprite whose glow takes the light-background colour; the detail bit
      for DETAIL. A sprite is black by the object's flag when it is the
      object itself, by the colour sprite's flag otherwise. */
  function ChannelOf(o: BatchObject, s: Sprite, t: SpriteType): (r: ColorChannel)
    ensures r.detail <==> t == Detail
    ensures t == Glow && o.glowColorIsLBG ==> r.id == COLOR_CHANNEL_LBG
    ensures !(t == Glow && o.glowColorIsLBG) && IsBlack(o, s) ==> r.id == COLOR_CHANNEL_BLACK
    ensures !(t == Glow && o.glowColorIsLBG) && !IsBlack(o, s) ==>
      r.id == (if t == Detail then o.detailColorId else o.mainColorId)
  {
    var channel := if t == Detail then o.detailColorId else o.mainColorId;
    var channel := if IsBlack(o, s) then COLOR_CHANNEL_BLACK else channel;
    var channel := if t == Glow && o.glowColorIsLBG then COLOR_CHANNEL_LBG else channel;
    ColorChannel(channel, t == Detail)
  }

  predicate IsBlack(o: BatchObject, s: Sprite) {
    if s.id == o.sprites.root.id then o.isObjectBlack else o.isColorSpriteBlack
  }

  /** For a glow sprite, the light-background channel wins over black. */
  lemma LbgOverridesBlack(o: BatchObject, s: Sprite)
    requires o.glowColorIsLBG && IsBlack(o, s)
    ensures ChannelOf(o, s, Glow) == ColorChannel(COLOR_CHANNEL_LBG, false)
    ensures ChannelOf(o, s, Base) == ColorChannel(COLOR_CHANNEL_BLACK, false)
  {
  }

  /** The sheet filter rejects the sprite. */
  predicate Filtered(b: Batch, o: BatchObject, t: SpriteType) {
    b.filter != NO_FILTER && SheetOf(o.sprites.parentMode, t) != b.filter
  }

  /** `prepareSpriteMeshWrite`: records the sprite's transforms, the
      object's start position and index, the channel, the sheet and the
      current vertex count, unless the sheet filter rejects the sprite. */
  function Prepare(b: Batch, o: BatchObject, s: Sprite, t: SpriteType, transform: Affine, texScale: int -> Vec2)
    : (r: Batch)
    ensures Filtered(b, o, t) ==> r == b
    ensures !Filtered(b, o, t) ==> r.current.vertexIndex == |b.vertices| && r.current.startPosition == o.startPosition
    ensures r.vertices == b.vertices && r.indices == b.indices && r.filter == b.filter
  {
    if Filtered(b, o, t) then b
    else
      var sheet := SheetOf(o.sprites.parentMode, t);
      b.(current := Current(
        SpriteVertexTransform(s, transform, sheet, texScale),
        o.startPosition, o.srbIndex, ChannelOf(o, s, t), sheet, |b.vertices|))
  }

  // ---------------------------------------------------------------------
  // writeSpriteVertex, writeSpriteIndex

  /** The vertex at quad coordinates `pos` of the current sprite. */
  function VertexAt(c: Current, pos: Vec2): Vertex {
    var tr := c.transforms;
    Vertex(
      Sub(Add(Add(Scale(tr.posRight, pos.x), Scale(tr.posUp, pos.y)), tr.posBottomLeft), c.startPosition),
      Add(Add(Scale(tr.texRight, pos.x), Scale(tr.texUp, pos.y)), tr.texBottomLeft),
      c.srbIndex, c.channel, c.sheet)
  }

  /** A vertex's offset added back to the object's start position is the
      point `right * x + up * y + bottomLeft` of the sprite's quad. */
  lemma VertexOffsetFromStart(c: Current, pos: Vec2)
    ensures var tr := c.transforms;
      Add(VertexAt(c, pos).positionOffset, c.startPosition)
        == Add(Add(Scale(tr.posRight, pos.x), Scale(tr.posUp, pos.y)), tr.posBottomLeft)
  {
  }

  /** `writeSpriteVertex`. */
  function WriteVertex(b: Batch, pos: Vec2): (r: Batch)
    ensures r.vertices == b.vertices + [VertexAt(b.current, pos)]
    ensures r.indices == b.indices && r.current == b.current
  {
    b.(vertices := b.vertices + [VertexAt(b.current, pos)])
  }

  /** `writeSpriteIndex`: relative to the vertex count at prepare time. */
  function WriteIndex(b: Batch, k: int): (r: Batch)
    ensures r.indices == b.indices + [b.current.vertexIndex + k]
    ensures r.vertices == b.vertices && r.current == b.current
  {
    b.(indices := b.indices + [b.current.vertexIndex + k])
  }

  /** The quad's corners in the order `QUAD_BL`, `QUAD_BR`, `QUAD_TL`,
      `QUAD_TR`. */
  function QuadVertices(c: Current): seq<Vertex> {
    [VertexAt(c, Vec2(0.0, 0.0)), VertexAt(c, Vec2(1.0, 0.0)),
     VertexAt(c, Vec2(0.0, 1.0)), VertexAt(c, Vec2(1.0, 1.0))]
  }

  /** The triangles (BL, TL, TR) and (BL, TR, BR) over the quad's corners. */
  const QUAD_INDICES: seq<int> := [0, 2, 3, 0, 3, 1]

  function Shift(s: seq<int>, base: int): (r: seq<int>)
    ensures |r| == |s| && forall j :: 0 <= j < |s| ==> r[j] == s[j] + base
  {
    seq(|s|, j requires 0 <= j < |s| => s[j] + base)
  }

  /** `n` consecutive integers from `base`. */
  function Consecutive(base: int, n: nat): (r: seq<int>)
    ensures |r| == n && forall j :: 0 <= j < n ==> r[j] == base + j
  {
    seq(n, j => base + j)
  }

  /** Every element of `s` lies in `[lo, hi)`. */
  predicate AllIn(s: seq<int>, lo: int, hi: int) {
    forall j :: 0 <= j < |s| ==> lo <= s[j] < hi
  }

  /** `receiveUnpackedSprite`'s fallback: one quad. */
  function WriteQuad(b: Batch): (r: Batch)
    ensures r.current == b.current && r.filter == b.filter
    ensures r.vertices == b.vertices + QuadVertices(b.current)
    ensures r.indices == b.indices + Shift(QUAD_INDICES, b.current.vertexIndex)
  {
    var b1 := WriteVertex(b, Vec2(0.0, 0.0));
    var b2 := WriteVertex(b1, Vec2(1.0, 0.0));
    var b3 := WriteVertex(b2, Vec2(0.0, 1.0));
    var b4 := WriteVertex(b3, Vec2(1.0, 1.0));
    var r := WriteIndex(WriteIndex(WriteIndex(WriteIndex(WriteIndex(WriteIndex(b4, 0), 2), 3), 0), 3), 1);
    assert r.indices == b.indices + Shift(QUAD_INDICES, b.current.vertexIndex);
    r
  }

  /** The vertices of a list of triangles, three per triangle in corner
      order. */
  function TriangleVertices(c: Current, tris: seq<Triangle>): (r: seq<Vertex>)
    ensures |r| == 3 * |tris|
  {
    if |tris| == 0 then []
    else [VertexAt(c, tris[0].a), VertexAt(c, tris[0].b), VertexAt(c, tris[0].c)] + TriangleVertices(c, tris[1..])
  }

  /** The vertices of triangle `j` are at positions `3j`, `3j + 1`, `3j + 2`. */
  lemma {:induction false} TriangleVerticesAt(c: Current, tris: seq<Triangle>, j: int)
    requires 0 <= j < |tris|
    ensures TriangleVertices(c, tris)[3 * j] == VertexAt(c, tris[j].a)
    ensures TriangleVertices(c, tris)[3 * j + 1] == VertexAt(c, tris[j].b)
    ensures TriangleVertices(c, tris)[3 * j + 2] == VertexAt(c, tris[j].c)
    decreases |tris|
  {
    if j > 0 {
      TriangleVerticesAt(c, tris[1..], j - 1);
      assert tris[1..][j - 1] == tris[j];
    }
  }

  lemma ConsecutiveSplit(base: int, n: nat)
    ensures Consecutive(base, n + 3) == [base, base + 1, base + 2] + Consecutive(base + 3, n)
  {
  }

  /** `writeSpriteMeshFromConvexList`'s callback over the triangles, `k`
      being the running vertex counter: three vertices and three consecutive
      indices per triangle. */
  function WriteTriangles(b: Batch, tris: seq<Triangle>, k: int): (r: Batch)
    ensures r.current == b.current && r.filter == b.filter
    decreases |tris|
  {
    if |tris| == 0 then b
    else
      WriteTriangles(WriteOne(b, tris[0], k), tris[1..], k + 3)
  }

  /** The callback appends the three vertices of every triangle, in
      order, and the consecutive indices from the running counter on. */
  lemma WriteTrianglesAppends(b: Batch, tris: seq<Triangle>, k: int)
    ensures WriteTriangles(b, tris, k).vertices == b.vertices + TriangleVertices(b.current, tris)
    ensures WriteTriangles(b, tris, k).indices == b.indices + Consecutive(b.current.vertexIndex + k, 3 * |tris|)
  {
    WriteTrianglesVertices(b, tris, k);
    WriteTrianglesIndices(b, tris, k);
  }

  /** Writing one triangle's vertices and indices. */
  function WriteOne(b: Batch, tri: Triangle, k: int): (r: Batch)
    ensures r.vertices == b.vertices + [VertexAt(b.current, tri.a)] + [VertexAt(b.current, tri.b)] + [VertexAt(b.current, tri.c)]
    ensures r.indices == b.indices + [b.current.vertexIndex + k] + [b.current.vertexIndex + k + 1] + [b.current.vertexIndex + k + 2]
    ensures r.current == b.current
  {
    var b1 := WriteVertex(WriteVertex(WriteVertex(b, tri.a), tri.b), tri.c);
    WriteIndex(WriteIndex(WriteIndex(b1, k), k + 1), k + 2)
  }

  lemma {:induction false} WriteTrianglesVertices(b: Batch, tris: seq<Triangle>, k: int)
    ensures WriteTriangles(b, tris, k).vertices == b.vertices + TriangleVertices(b.current, tris)
    decreases |tris|
  {
    if |tris| > 0 {
      var tri := tris[0];
      var b2 := WriteOne(b, tri, k);
      assert WriteTriangles(b, tris, k) == WriteTriangles(b2, tris[1..], k + 3);
      WriteTrianglesVertices(b2, tris[1..], k + 3);
      AppendThree(b.vertices, VertexAt(b.current, tri.a), VertexAt(b.current, tri.b), VertexAt(b.current, tri.c),
                  TriangleVertices(b.current, tris[1..]));
    }
  }

  lemma {:induction false} WriteTrianglesIndices(b: Batch, tris: seq<Triangle>, k: int)
    ensures WriteTriangles(b, tris, k).indices == b.indices + Consecutive(b.current.vertexIndex + k, 3 * |tris|)
    decreases |tris|
  {
    if |tris| > 0 {
      var b2 := WriteOne(b, tris[0], k);
      assert WriteTriangles(b, tris, k) == WriteTriangles(b2, tris[1..], k + 3);
      WriteTrianglesIndices(b2, tris[1..], k + 3);
      var base := b.current.vertexIndex + k;
      ConsecutiveSplit(base, 3 * (|tris| - 1));
      AppendThree(b.indices, base, base + 1, base + 2, Consecutive(base + 3, 3 * (|tris| - 1)));
    }
  }

  lemma AppendThree<T>(s: seq<T>, x: T, y: T, z: T, t: seq<T>)
    ensures s + [x] + [y] + [z] + t == s + ([x, y, z] + t)
  {
  }

  /** `writeSpriteMeshFromConvexList`: the triangles of the mesh, numbered
      from the vertex count at prepare time. */
  function WriteMesh(b: Batch, list: ConvexList): (r: Batch)
    ensures r.current == b.current && r.filter == b.filter
    ensures r.vertices == b.vertices + TriangleVertices(b.current, TriangulateList(list))
    ensures r.indices == b.indices + Consecutive(b.current.vertexIndex, 3 * |TriangulateList(list)|)
  {
    WriteTrianglesAppends(b, TriangulateList(list), 0);
    WriteTriangles(b, TriangulateList(list), 0)
  }

  // ---------------------------------------------------------------------
  // receiveUnpackedSprite

  /** `r` is `b` with vertices and indices appended. */
  predicate Extends(b: Batch, r: Batch) {
    |b.vertices| <= |r.vertices| && r.vertices[..|b.vertices|] == b.vertices &&
    |b.indices| <= |r.indices| && r.indices[..|b.indices|] == b.indices
  }

  lemma ExtendsTransitive(a: Batch, b: Batch, c: Batch)
    requires Extends(a, b) && Extends(b, c)
    ensures Extends(a, c)
  {
    assert c.vertices[..|a.vertices|] == c.vertices[..|b.vertices|][..|a.vertices|];
    assert c.indices[..|a.indices|] == c.indices[..|b.indices|][..|a.indices|];
  }

  /** The vertices and indices written for one sprite. */
  function SpriteMesh(c: Current, mesh: Option<ConvexList>): (seq<Vertex>, seq<int>) {
    match mesh
    case None => (QuadVertices(c), Shift(QUAD_INDICES, c.vertexIndex))
    case Some(list) =>
      var tris := TriangulateList(list);
      (TriangleVertices(c, tris), Consecutive(c.vertexIndex, 3 * |tris|))
  }

  /** `receiveUnpackedSprite` as written: prepares, then writes the sprite's
      mesh, or the quad when the sprite has none, even when the sheet filter
      made the preparation return early. */
  function Receive(b: Batch, o: BatchObject, e: Emitted, d: Dictionary, texScale: int -> Vec2): (r: Batch)
    ensures r.filter == b.filter
    ensures var p := Prepare(b, o, e.sprite, e.spriteType, Compose(e.path), texScale);
      var m := SpriteMesh(p.current, GetSpriteMeshForSprite(d, e.sprite.id));
      r.vertices == b.vertices + m.0 && r.indices == b.indices + m.1 && r.current == p.current
  {
    var p := Prepare(b, o, e.sprite, e.spriteType, Compose(e.path), texScale);
    match GetSpriteMeshForSprite(d, e.sprite.id)
    case Some(list) => WriteMesh(p, list)
    case None => WriteQuad(p)
  }

  /** The mesh of one sprite uses only its own vertices: numbered from
      `c.vertexIndex`, below `c.vertexIndex` plus the vertices written. */
  lemma SpriteMeshIndicesInRange(c: Current, mesh: Option<ConvexList>)
    ensures var m := SpriteMesh(c, mesh);
      AllIn(m.1, c.vertexIndex, c.vertexIndex + |m.0|)
  {
  }

  /** A sprite with no mesh gets one quad; one with a mesh gets three
      vertices and three indices per triangle of the mesh. */
  lemma SpriteMeshCounts(c: Current, mesh: Option<ConvexList>)
    ensures var (vs, ixs) := SpriteMesh(c, mesh);
      match mesh
      case None => |vs| == VERTICES_PER_QUAD && |ixs| == INDICES_PER_QUAD
      case Some(list) => |vs| == 3 * |TriangulateList(list)| && |ixs| == |vs|
  {
  }

  /** Appending vertices and indices that point into them keeps every new
      index within the new vertices. */
  lemma AppendInRange(b: Batch, r: Batch, vs: seq<Vertex>, ixs: seq<int>)
    requires r.vertices == b.vertices + vs && r.indices == b.indices + ixs
    requires AllIn(ixs, |b.vertices|, |b.vertices| + |vs|)
    ensures Extends(b, r) && AllIn(r.indices[|b.indices|..], |b.vertices|, |r.vertices|)
  {
    assert r.indices[|b.indices|..] == ixs;
    assert r.vertices[..|b.vertices|] == b.vertices;
    assert r.indices[..|b.indices|] == b.indices;
  }

  /** As written, a sprite the filter rejects after an accepted quad
      sprite still gets four vertices and six indices, and those indices
      repeat the previous sprite's: they draw its quad again and none of
      the rejected sprite's own vertices. */
  lemma FilteredSpriteRedrawsPrevious(b: Batch, o1: BatchObject, e1: Emitted, o: BatchObject, e: Emitted,
                                      d: Dictionary, texScale: int -> Vec2)
    requires !Filtered(b, o1, e1.spriteType) && GetSpriteMeshForSprite(d, e1.sprite.id).None?
    requires Filtered(b, o, e.spriteType) && GetSpriteMeshForSprite(d, e.sprite.id).None?
    ensures var b1 := Receive(b, o1, e1, d, texScale);
      var r := Receive(b1, o, e, d, texScale);
      |b.indices| <= |b1.indices| <= |r.indices| && |b1.vertices| <= |r.vertices| &&
      |r.vertices| == |b1.vertices| + VERTICES_PER_QUAD &&
      r.indices[|b1.indices|..] == b1.indices[|b.indices|..] &&
      AllIn(r.indices[|b1.indices|..], |b.vertices|, |b1.vertices|)
  {
    var b1 := Receive(b, o1, e1, d, texScale);
    var r := Receive(b1, o, e, d, texScale);
    ReceiveQuad(b, o1, e1, d, texScale);
    ReceiveQuad(b1, o, e, d, texScale);
    var ixs := Shift(QUAD_INDICES, |b.vertices|);
    AppendedSuffix(b.indices, ixs);
    AppendedSuffix(b1.indices, ixs);
    QuadIndicesInRange(|b.vertices|);
  }

  lemma AppendedSuffix<T>(s: seq<T>, t: seq<T>)
    ensures (s + t)[|s|..] == t
  {
  }

  /** The quad's indices, shifted to `base`, lie in its four vertices. */
  lemma QuadIndicesInRange(base: int)
    ensures AllIn(Shift(QUAD_INDICES, base), base, base + VERTICES_PER_QUAD)
  {
  }

  /** A sprite without a mesh writes one quad, numbered from the current
      vertex index, which an accepted sprite sets to the vertex count. */
  lemma ReceiveQuad(b: Batch, o: BatchObject, e: Emitted, d: Dictionary, texScale: int -> Vec2)
    requires GetSpriteMeshForSprite(d, e.sprite.id).None?
    ensures var r := Receive(b, o, e, d, texScale);
      && r.filter == b.filter
      && |r.vertices| == |b.vertices| + VERTICES_PER_QUAD
      && r.indices == b.indices + Shift(QUAD_INDICES, r.current.vertexIndex)
      && (Filtered(b, o, e.spriteType) ==> r.current == b.current)
      && (!Filtered(b, o, e.spriteType) ==> r.current.vertexIndex == |b.vertices|)
  {
  }

  /** `receiveUnpackedSprite` with the sheet filter's early return applied
      to the whole call: a rejected sprite writes nothing, an accepted one
      writes indices into its own vertices only. */
  function ReceiveFixed(b: Batch, o: BatchObject, e: Emitted, d: Dictionary, texScale: int -> Vec2): (r: Batch)
    ensures Filtered(b, o, e.spriteType) ==> r == b
    ensures r.filter == b.filter
    ensures Extends(b, r)
    ensures AllIn(r.indices[|b.indices|..], |b.vertices|, |r.vertices|)
  {
    if Filtered(b, o, e.spriteType) then
      assert b.vertices[..|b.vertices|] == b.vertices && b.indices[..|b.indices|] == b.indices;
      b
    else
      var p := Prepare(b, o, e.sprite, e.spriteType, Compose(e.path), texScale);
      var mesh := GetSpriteMeshForSprite(d, e.sprite.id);
      SpriteMeshIndicesInRange(p.current, mesh);
      var m := SpriteMesh(p.current, mesh);
      var r := Receive(b, o, e, d, texScale);
      AppendInRange(b, r, m.0, m.1);
      r
  }

  /** Every index is below the number of vertices. */
  predicate IndicesValid(b: Batch) {
    AllIn(b.indices, 0, |b.vertices|)
  }

  /** Appending indices into the appended vertices keeps a batch valid. */
  lemma ExtendsKeepsValid(b: Batch, r: Batch)
    requires IndicesValid(b) && Extends(b, r)
    requires AllIn(r.indices[|b.indices|..], |b.vertices|, |r.vertices|)
    ensures IndicesValid(r)
  {
    forall j | 0 <= j < |r.indices| ensures 0 <= r.indices[j] < |r.vertices| {
      if j < |b.indices| {
        assert r.indices[j] == r.indices[..|b.indices|][j];
      } else {
        assert r.indices[j] == r.indices[|b.indices|..][j - |b.indices|];
      }
    }
  }

  /** A batch as `writeGameObject` keeps it: every index below the vertex
      count, and the current sprite's first vertex no further than the
      vertex count. */
  predicate Valid(b: Batch) {
    IndicesValid(b) && b.current.vertexIndex <= |b.vertices|
  }

  /** As written, receiving a sprite only appends, and keeps every index
      within the batch's vertices: a rejected sprite's indices are the
      previous sprite's, which lie below the vertex count. */
  lemma ReceiveKeepsValid(b: Batch, o: BatchObject, e: Emitted, d: Dictionary, texScale: int -> Vec2)
    ensures Extends(b, Receive(b, o, e, d, texScale))
    ensures Valid(b) ==> Valid(Receive(b, o, e, d, texScale))
  {
    var p := Prepare(b, o, e.sprite, e.spriteType, Compose(e.path), texScale);
    var mesh := GetSpriteMeshForSprite(d, e.sprite.id);
    SpriteMeshIndicesInRange(p.current, mesh);
    var m := SpriteMesh(p.current, mesh);
    var r := Receive(b, o, e, d, texScale);
    assert r.vertices[..|b.vertices|] == b.vertices;
    assert r.indices[..|b.indices|] == b.indices;
    if Valid(b) {
      assert p.current.vertexIndex <= |b.vertices|;
      forall j | 0 <= j < |r.indices| ensures 0 <= r.indices[j] < |r.vertices| {
        if j < |b.indices| {
          assert r.indices[j] == b.indices[j];
        } else {
          assert r.indices[j] == m.1[j - |b.indices|];
        }
      }
    }
  }

  /** The loop of `writeGameObject` as written: every sprite the unpacker
      emits for the object, in order, each through `receiveUnpackedSprite`. */
  function WriteSprites(b: Batch, o: BatchObject, es: seq<Emitted>, d: Dictionary, texScale: int -> Vec2): (r: Batch)
    ensures r.filter == b.filter
    ensures Extends(b, r)
    ensures Valid(b) ==> Valid(r)
    decreases |es|
  {
    if |es| == 0 then
      assert b.vertices[..|b.vertices|] == b.vertices && b.indices[..|b.indices|] == b.indices;
      b
    else
      var b1 := Receive(b, o, es[0], d, texScale);
      var r := WriteSprites(b1, o, es[1..], d, texScale);
      ReceiveKeepsValid(b, o, es[0], d, texScale);
      ExtendsTransitive(b, b1, r);
      r
  }

  /** The same loop with the corrected receive: rejected sprites write
      nothing, accepted ones index only their own vertices. */
  function WriteSpritesFixed(b: Batch, o: BatchObject, es: seq<Emitted>, d: Dictionary, texScale: int -> Vec2): (r: Batch)
    ensures r.filter == b.filter
    ensures Extends(b, r)
    ensures IndicesValid(b) ==> IndicesValid(r)
    ensures (forall i :: 0 <= i < |es| ==> Filtered(b, o, es[i].spriteType)) ==> r == b
    decreases |es|
  {
    if |es| == 0 then
      assert b.vertices[..|b.vertices|] == b.vertices && b.indices[..|b.indices|] == b.indices;
      b
    else
      var b1 := ReceiveFixed(b, o, es[0], d, texScale);
      var r := WriteSpritesFixed(b1, o, es[1..], d, texScale);
      ExtendsTransitive(b, b1, r);
      assert (forall i :: 0 <= i < |es| ==> Filtered(b, o, es[i].spriteType)) ==>
        forall i :: 0 <= i < |es[1..]| ==> Filtered(b1, o, es[1..][i].spriteType) by {
        if forall i :: 0 <= i < |es| ==> Filtered(b, o, es[i].spriteType) {
          forall i | 0 <= i < |es[1..]| ensures Filtered(b1, o, es[1..][i].spriteType) {
            assert es[1..][i] == es[i + 1];
          }
        }
      }
      if IndicesValid(b) then
        ExtendsKeepsValid(b, b1);
        r
      else r
  }

  /** Without a sheet filter no sprite is rejected, and the loop as written
      writes exactly what the corrected loop writes. */
  lemma {:induction false} UnfilteredWritesAgree(b: Batch, o: BatchObject, es: seq<Emitted>, d: Dictionary,
                                                 texScale: int -> Vec2)
    requires b.filter == NO_FILTER
    ensures WriteSprites(b, o, es, d, texScale) == WriteSpritesFixed(b, o, es, d, texScale)
    decreases |es|
  {
    if |es| > 0 {
      var b1 := Receive(b, o, es[0], d, texScale);
      assert ReceiveFixed(b, o, es[0], d, texScale) == b1;
      UnfilteredWritesAgree(b1, o, es[1..], d, texScale);
    }
  }

  /** `writeGameObject`. */
  function WriteGameObject(b: Batch, o: BatchObject, d: Dictionary, texScale: int -> Vec2): (r: Batch)
    ensures Extends(b, r)
    ensures Valid(b) ==> Valid(r)
  {
    WriteSprites(b, o, UnpackObject(o.sprites), d, texScale)
  }

  // ---------------------------------------------------------------------
  // finishWriting, draw

  /** `finishWriting`: records the counts and empties the staging vectors. */
  function FinishWriting(b: Batch): (r: Batch)
    ensures r.vertexCount == |b.vertices| && r.indexCount == |b.indices|
    ensures r.vertices == [] && r.indices == []
  {
    b.(vertexCount := |b.vertices|, indexCount := |b.indices|, vertices := [], indices := [])
  }

  /** `draw`'s return value: the recorded index count in quads. */
  function Draw(b: Batch): (r: nat)
    ensures r * INDICES_PER_QUAD <= b.indexCount < (r + 1) * INDICES_PER_QUAD
  {
    b.indexCount / INDICES_PER_QUAD
  }

  /** A batch of `n` quads reports `n` quads drawn. */
  lemma DrawCountsQuads(b: Batch, n: nat)
    requires |b.indices| == INDICES_PER_QUAD * n
    ensures Draw(FinishWriting(b)) == n
  {
  }
}
