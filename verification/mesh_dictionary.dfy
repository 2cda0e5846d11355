/** `SpriteMeshDictionary` (src/renderer/SpriteMeshDictionary.cpp): convex
    meshes per sprite frame, read from a JSON document.

    The file read and the JSON parser are not modelled: `LoadFromFile`
    receives the parsed document, or `None` when the file could not be read
    or parsed. The host's sprite-frame cache is the function `frameByName`,
    and the edge normal of a polygon edge (`getClockwise` followed by the
    normalisation in the `Line` constructor) is the function `edgeNormal`. */
module SpriteMeshes {
  import opened Wrappers
  import opened Geometry
  import opened ConvexPolygons
  import opened ConvexLists

  /** A JSON value. An object's entries are listed in ascending key order
      with distinct keys, as `std::map` iterates them. */
  datatype Json =
    | JNull
    | JBool(b: bool)
    | JNumber(n: real)
    | JString(s: string)
    | JArray(items: seq<Json>)
    | JObject(entries: seq<(string, Json)>)

  type SpriteId = nat
  type FrameId = nat

  // ---------------------------------------------------------------------
  // Parsing

  /** A point is an array of exactly two numbers. */
  predicate IsPoint(v: Json) {
    v.JArray? && |v.items| == 2 && v.items[0].JNumber? && v.items[1].JNumber?
  }

  /** Parses every point of `vs`, failing at the first one that is not an
      array of two numbers. */
  function ParsePoints(vs: seq<Json>): (r: Option<seq<Vec2>>)
    ensures r.Some? <==> forall i :: 0 <= i < |vs| ==> IsPoint(vs[i])
    ensures r.Some? ==> |r.value| == |vs|
    ensures r.Some? ==> forall i :: 0 <= i < |vs| ==>
      r.value[i] == Vec2(vs[i].items[0].n, vs[i].items[1].n)
  {
    if |vs| == 0 then Some([])
    else if !IsPoint(vs[0]) then None
    else
      match ParsePoints(vs[1..])
      case None =>
        assert !forall i :: 0 <= i < |vs| ==> IsPoint(vs[i]) by {
          var j :| 0 <= j < |vs[1..]| && !IsPoint(vs[1..][j]);
          assert vs[1..][j] == vs[j + 1];
        }
        None
      case Some(rest) =>
        Some([Vec2(vs[0].items[0].n, vs[0].items[1].n)] + rest)
  }

  /** The line of the edge from `points[i]` to the next point, wrapping
      around; its front faces outward for counter-clockwise points. */
  function EdgeLine(points: seq<Vec2>, i: int, edgeNormal: Vec2 -> Normal): (l: Line)
    requires 0 <= i < |points|
    ensures OnLine(l, points[i])
  {
    var p1 := points[i];
    var p2 := points[NextIndex(|points|, i)];
    LineThrough(p1, edgeNormal(Sub(p2, p1)))
  }

  /** The edge lines of `points`, in edge order. */
  function EdgeLines(points: seq<Vec2>, edgeNormal: Vec2 -> Normal): (r: seq<Line>)
    ensures |r| == |points|
    ensures forall i :: 0 <= i < |points| ==> r[i] == EdgeLine(points, i, edgeNormal)
  {
    seq(|points|, i requires 0 <= i < |points| => EdgeLine(points, i, edgeNormal))
  }

  /** The loop of `parseConvexPolygon` from edge `i` on: `addLine` as
      written, once per edge line. */
  function AddEdgesFrom(polygon: ConvexPolygon, points: seq<Vec2>, i: nat, edgeNormal: Vec2 -> Normal): (r: ConvexPolygon)
    requires i <= |points|
    ensures i == |points| ==> r == polygon
    decreases |points| - i
  {
    if i == |points| then polygon
    else AddEdgesFrom(AddLine(polygon, EdgeLine(points, i, edgeNormal)), points, i + 1, edgeNormal)
  }

  /** The loop makes exactly the `addLine` calls of the edge lines from
      `i` on, in edge order. */
  lemma {:induction false} AddEdgesIsFold(polygon: ConvexPolygon, points: seq<Vec2>, i: nat, edgeNormal: Vec2 -> Normal)
    requires i <= |points|
    ensures AddEdgesFrom(polygon, points, i, edgeNormal) == AddLines(polygon, EdgeLines(points, edgeNormal)[i..])
    decreases |points| - i
  {
    var ls := EdgeLines(points, edgeNormal)[i..];
    if i < |points| {
      assert ls[0] == EdgeLine(points, i, edgeNormal);
      assert ls[1..] == EdgeLines(points, edgeNormal)[i + 1..];
      AddEdgesIsFold(AddLine(polygon, ls[0]), points, i + 1, edgeNormal);
    }
  }

  /** No two edges of the polygon have the same normal. */
  predicate EdgeNormalsApart(points: seq<Vec2>, edgeNormal: Vec2 -> Normal) {
    NormalsApart(EdgeLines(points, edgeNormal))
  }

  /** The square (1,0), (2,0), (2,2), (0,2), (0,0) lists its bottom side as
      two edges, (0,0)-(1,0) and (1,0)-(2,0), with one direction and so one
      normal: the parser then meets a same-normal line, whatever the edge
      normal function. */
  lemma SquareEdgesShareNormal(edgeNormal: Vec2 -> Normal)
    ensures !EdgeNormalsApart([Vec2(1.0, 0.0), Vec2(2.0, 0.0), Vec2(2.0, 2.0), Vec2(0.0, 2.0), Vec2(0.0, 0.0)], edgeNormal)
  {
    var points := [Vec2(1.0, 0.0), Vec2(2.0, 0.0), Vec2(2.0, 2.0), Vec2(0.0, 2.0), Vec2(0.0, 0.0)];
    var ls := EdgeLines(points, edgeNormal);
    var bottom := Vec2(1.0, 0.0);
    assert Sub(points[1], points[0]) == bottom;
    assert Sub(points[0], points[4]) == bottom;
    assert ls[0].normal == edgeNormal(bottom);
    assert ls[4].normal == edgeNormal(bottom);
    assert Angle(ls[0]) == Angle(ls[4]);
    assert SameNormalAs(ls[0], ls[4]);
  }

  /** The polygon of `n` points as `parseConvexPolygon` builds it: one
      `addLine` per edge `(p_i, p_(i+1 mod n))`, in edge order. */
  function PolygonOfPoints(points: seq<Vec2>, edgeNormal: Vec2 -> Normal): (r: ConvexPolygon)
    ensures |points| == 0 ==> r == []
  {
    AddEdgesFrom([], points, 0, edgeNormal)
  }

  /** The polygon of `points` is `addLine` applied to its edge lines, the
      edge from `p_i` to `p_(i+1 mod n)` for each `i` in order. */
  lemma PolygonOfPointsIsFold(points: seq<Vec2>, edgeNormal: Vec2 -> Normal)
    ensures PolygonOfPoints(points, edgeNormal) == AddLines([], EdgeLines(points, edgeNormal))
  {
    AddEdgesIsFold([], points, 0, edgeNormal);
    assert EdgeLines(points, edgeNormal)[0..] == EdgeLines(points, edgeNormal);
  }

  /** When no two edges share a normal, the polygon as written is the
      corrected one, and so keeps the line-order invariant. */
  lemma PolygonOfPointsAgrees(points: seq<Vec2>, edgeNormal: Vec2 -> Normal)
    requires EdgeNormalsApart(points, edgeNormal)
    ensures PolygonOfPoints(points, edgeNormal) == PolygonOfPointsFixed(points, edgeNormal)
    ensures Separated(PolygonOfPoints(points, edgeNormal))
  {
    PolygonOfPointsIsFold(points, edgeNormal);
    AddLinesAgree([], EdgeLines(points, edgeNormal));
  }

  /** The polygon of `points` built with the corrected `addLine`. */
  function PolygonOfPointsFixed(points: seq<Vec2>, edgeNormal: Vec2 -> Normal): (r: ConvexPolygon)
    ensures Separated(r)
    ensures |points| == 0 ==> r == []
  {
    AddLinesFixed([], EdgeLines(points, edgeNormal))
  }

  /** The points a polygon value parses to, if any, have edges of pairwise
      different normals. */
  predicate EdgesApartJson(v: Json, edgeNormal: Vec2 -> Normal) {
    v.JArray? && ParsePoints(v.items).Some? ==> EdgeNormalsApart(ParsePoints(v.items).value, edgeNormal)
  }

  /** `parseConvexPolygon`. */
  function ParseConvexPolygon(v: Json, edgeNormal: Vec2 -> Normal): (r: Option<ConvexPolygon>)
    ensures r.Some? <==> v.JArray? && forall i :: 0 <= i < |v.items| ==> IsPoint(v.items[i])
    ensures r.Some? ==> r.value == PolygonOfPoints(ParsePoints(v.items).value, edgeNormal)
  {
    if !v.JArray? then None
    else
      match ParsePoints(v.items)
      case None => None
      case Some(points) => Some(PolygonOfPoints(points, edgeNormal))
  }

  /** A parsed polygon whose edges have pairwise different normals keeps
      the line-order invariant. */
  lemma ParsedPolygonSeparated(v: Json, edgeNormal: Vec2 -> Normal)
    ensures ParseConvexPolygon(v, edgeNormal).Some? && EdgesApartJson(v, edgeNormal) ==>
      Separated(ParseConvexPolygon(v, edgeNormal).value)
  {
    if ParseConvexPolygon(v, edgeNormal).Some? && EdgesApartJson(v, edgeNormal) {
      PolygonOfPointsAgrees(ParsePoints(v.items).value, edgeNormal);
    }
  }

  /** `parseConvexPolygon` with the corrected `addLine`: the same values
      parse, the result always keeps the line-order invariant, and it is
      the polygon as written whenever no two edges share a normal. */
  function ParseConvexPolygonFixed(v: Json, edgeNormal: Vec2 -> Normal): (r: Option<ConvexPolygon>)
    ensures r.Some? <==> ParseConvexPolygon(v, edgeNormal).Some?
    ensures r.Some? ==> Separated(r.value)
    ensures r.Some? && EdgesApartJson(v, edgeNormal) ==> r == ParseConvexPolygon(v, edgeNormal)
  {
    if !v.JArray? then None
    else
      match ParsePoints(v.items)
      case None => None
      case Some(points) =>
        assert EdgesApartJson(v, edgeNormal) ==> PolygonOfPointsFixed(points, edgeNormal) == PolygonOfPoints(points, edgeNormal) by {
          if EdgesApartJson(v, edgeNormal) {
            PolygonOfPointsAgrees(points, edgeNormal);
          }
        }
        Some(PolygonOfPointsFixed(points, edgeNormal))
  }

  /** `parseConvexPolygon` as a value, for the list loop. */
  function PolygonParser(edgeNormal: Vec2 -> Normal): Json -> Option<ConvexPolygon> {
    v => ParseConvexPolygon(v, edgeNormal)
  }

  /** `r` is what appending the polygons `parse` makes of `vs` to `list`
      gives: a result exactly when every polygon parses, holding the
      polygons of `list` followed by those of `vs` in order. */
  ghost predicate ParsedInto(list: ConvexList, vs: seq<Json>, parse: Json -> Option<ConvexPolygon>, r: Option<ConvexList>) {
    && (r.Some? <==> forall i :: 0 <= i < |vs| ==> parse(vs[i]).Some?)
    && (r.Some? ==> |r.value.polygons| == |list.polygons| + |vs|)
    && (r.Some? ==> forall i :: 0 <= i < |list.polygons| ==> r.value.polygons[i] == list.polygons[i])
    && (r.Some? ==> forall i :: 0 <= i < |vs| ==>
          r.value.polygons[|list.polygons| + i] == parse(vs[i]).value)
  }

  /** Parses every polygon of `vs`, appending each to `list`, and fails as
      soon as one polygon fails. */
  function ParsePolygonsInto(list: ConvexList, vs: seq<Json>, edgeNormal: Vec2 -> Normal): (r: Option<ConvexList>)
    ensures ParsedInto(list, vs, PolygonParser(edgeNormal), r)
    decreases |vs|
  {
    if |vs| == 0 then Some(list)
    else
      match ParseConvexPolygon(vs[0], edgeNormal)
      case None => None
      case Some(p) =>
        var r := ParsePolygonsInto(AddPolygon(list, p), vs[1..], edgeNormal);
        ParsedIntoStep(list, vs, PolygonParser(edgeNormal), p, r);
        r
  }

  /** Parsing the first polygon and then the rest into the list with that
      polygon appended parses the whole of `vs` into `list`. */
  lemma ParsedIntoStep(list: ConvexList, vs: seq<Json>, parse: Json -> Option<ConvexPolygon>, p: ConvexPolygon, r: Option<ConvexList>)
    requires |vs| > 0 && parse(vs[0]) == Some(p)
    requires ParsedInto(AddPolygon(list, p), vs[1..], parse, r)
    ensures ParsedInto(list, vs, parse, r)
  {
    var n := |list.polygons|;
    var l1 := AddPolygon(list, p);
    if r.None? {
      var j :| 0 <= j < |vs[1..]| && !parse(vs[1..][j]).Some?;
      assert vs[1..][j] == vs[j + 1];
    } else {
      forall i | 0 <= i < |vs|
        ensures parse(vs[i]).Some?
      {
        if i > 0 { assert vs[1..][i - 1] == vs[i]; }
      }
      forall i | 0 <= i < n
        ensures r.value.polygons[i] == list.polygons[i]
      {
        assert l1.polygons[..n][i] == l1.polygons[i];
      }
      forall i | 0 <= i < |vs|
        ensures r.value.polygons[n + i] == parse(vs[i]).value
      {
        if i > 0 { assert vs[1..][i - 1] == vs[i]; }
      }
    }
  }

  /** `parseConvexList`: fails unless the value is an array of parsable
      polygons; otherwise keeps the polygons in order. */
  function ParseConvexList(v: Json, edgeNormal: Vec2 -> Normal): (r: Option<ConvexList>)
    ensures r.Some? <==> v.JArray? && forall i :: 0 <= i < |v.items| ==> ParseConvexPolygon(v.items[i], edgeNormal).Some?
    ensures r.Some? ==> |r.value.polygons| == |v.items|
    ensures r.Some? ==> forall i :: 0 <= i < |v.items| ==>
      r.value.polygons[i] == ParseConvexPolygon(v.items[i], edgeNormal).value
    ensures r.Some? ==> forall i :: 0 <= i < |r.value.polygons| && EdgesApartJson(v.items[i], edgeNormal) ==>
      Separated(r.value.polygons[i])
  {
    if !v.JArray? then None
    else
      var r := ParsePolygonsInto(Empty(), v.items, edgeNormal);
      ParsedSeparated(v.items, edgeNormal, r);
      r
  }

  /** A list parsed from scratch holds exactly the parsed polygons; each
      whose edges have pairwise different normals is separated. */
  lemma ParsedSeparated(vs: seq<Json>, edgeNormal: Vec2 -> Normal, r: Option<ConvexList>)
    requires ParsedInto(Empty(), vs, PolygonParser(edgeNormal), r)
    ensures r.Some? ==> |r.value.polygons| == |vs|
    ensures r.Some? ==> forall i :: 0 <= i < |vs| ==> r.value.polygons[i] == ParseConvexPolygon(vs[i], edgeNormal).value
    ensures r.Some? ==> forall i :: 0 <= i < |r.value.polygons| && EdgesApartJson(vs[i], edgeNormal) ==>
      Separated(r.value.polygons[i])
  {
    if r.Some? {
      var ps := r.value.polygons;
      forall i | 0 <= i < |vs| ensures ps[i] == ParseConvexPolygon(vs[i], edgeNormal).value {
        assert ps[|Empty().polygons| + i] == ps[i];
      }
      forall i | 0 <= i < |ps| && EdgesApartJson(vs[i], edgeNormal)
        ensures Separated(ps[i])
      {
        ParsedPolygonSeparated(vs[i], edgeNormal);
      }
    }
  }

  // ---------------------------------------------------------------------
  // The dictionary

  /** The two static maps and the last loaded path. */
  datatype Dictionary = Dictionary(
    lastPath: string,
    framesOfSprites: map<SpriteId, FrameId>,
    meshes: map<FrameId, ConvexList>)

  /** The hooked `initWithSpriteFrame`: records the sprite's frame when the
      host initialisation succeeds. */
  function InitWithSpriteFrame(d: Dictionary, sprite: SpriteId, frame: FrameId, initOk: bool): (r: Dictionary)
    ensures initOk ==> sprite in r.framesOfSprites && r.framesOfSprites[sprite] == frame
    ensures !initOk ==> r == d
    ensures forall s :: s != sprite ==> (s in r.framesOfSprites <==> s in d.framesOfSprites)
    ensures forall s :: s != sprite && s in d.framesOfSprites ==> r.framesOfSprites[s] == d.framesOfSprites[s]
    ensures r.meshes == d.meshes && r.lastPath == d.lastPath
  {
    if initOk then d.(framesOfSprites := d.framesOfSprites[sprite := frame]) else d
  }

  /** The hooked destructor: forgets the sprite. */
  function DestroySprite(d: Dictionary, sprite: SpriteId): (r: Dictionary)
    ensures sprite !in r.framesOfSprites
    ensures forall s :: s != sprite ==> (s in r.framesOfSprites <==> s in d.framesOfSprites)
    ensures forall s :: s != sprite && s in d.framesOfSprites ==> r.framesOfSprites[s] == d.framesOfSprites[s]
    ensures r.meshes == d.meshes && r.lastPath == d.lastPath
  {
    d.(framesOfSprites := d.framesOfSprites - {sprite})
  }

  /** A sprite destroyed right after it was initialised has no mesh. */
  lemma DestroyedSpriteHasNoMesh(d: Dictionary, sprite: SpriteId, frame: FrameId)
    ensures GetSpriteMeshForSprite(DestroySprite(InitWithSpriteFrame(d, sprite, frame, true), sprite), sprite).None?
  {
  }

  /** `getSpriteMeshForSprite`: the mesh of the sprite's recorded frame. */
  function GetSpriteMeshForSprite(d: Dictionary, sprite: SpriteId): (r: Option<ConvexList>)
    ensures r.None? <==> sprite !in d.framesOfSprites || d.framesOfSprites[sprite] !in d.meshes
    ensures r.Some? ==> r.value == d.meshes[d.framesOfSprites[sprite]]
  {
    if sprite !in d.framesOfSprites then None
    else
      var frame := d.framesOfSprites[sprite];
      if frame !in d.meshes then None else Some(d.meshes[frame])
  }

  /** What one entry of the document contributes: its frame and its mesh,
      or nothing when the frame is unknown or the list does not parse. */
  function EntryMesh(entry: (string, Json), frameByName: string -> Option<FrameId>, edgeNormal: Vec2 -> Normal): Option<(FrameId, ConvexList)> {
    match frameByName(entry.0)
    case None => None
    case Some(frame) =>
      match ParseConvexList(entry.1, edgeNormal)
      case None => None
      case Some(list) => Some((frame, list))
  }

  /** One store into the mesh map, or none. */
  type Write = Option<(FrameId, ConvexList)>

  /** `ups[i]` writes a value under `k`. */
  predicate Writes(ups: seq<Write>, i: int, k: FrameId)
    requires 0 <= i < |ups|
  {
    ups[i].Some? && ups[i].value.0 == k
  }

  /** Performs the writes of `ups` on `m` in order, skipping the `None`s;
      a later write to a key overwrites an earlier one. */
  function ApplyWrites(m: map<FrameId, ConvexList>, ups: seq<Write>): (r: map<FrameId, ConvexList>)
    ensures forall k :: k in r <==> k in m || LastWrite(ups, k).Some?
    ensures forall k :: k in r ==>
      r[k] == if LastWrite(ups, k).Some? then ups[LastWrite(ups, k).value].value.1 else m[k]
    decreases |ups|
  {
    if |ups| == 0 then m
    else
      var n := |ups| - 1;
      var prev := ApplyWrites(m, ups[..n]);
      match ups[n]
      case None => prev
      case Some(kv) => prev[kv.0 := kv.1]
  }

  /** The index of the last write to `k` in `ups`, if any. */
  function LastWrite(ups: seq<Write>, k: FrameId): (r: Option<nat>)
    ensures r.None? <==> forall i :: 0 <= i < |ups| ==> !Writes(ups, i, k)
    ensures r.Some? ==> r.value < |ups| && Writes(ups, r.value, k)
    ensures r.Some? ==> forall j :: r.value < j < |ups| ==> !Writes(ups, j, k)
    decreases |ups|
  {
    if |ups| == 0 then None
    else if Writes(ups, |ups| - 1, k) then Some(|ups| - 1)
    else
      var n := |ups| - 1;
      assert forall i :: 0 <= i < n ==> (Writes(ups[..n], i, k) <==> Writes(ups, i, k)) by {
        forall i | 0 <= i < n ensures Writes(ups[..n], i, k) <==> Writes(ups, i, k) {
          assert ups[..n][i] == ups[i];
        }
      }
      LastWrite(ups[..n], k)
  }

  /** What each entry of the document contributes. */
  function Contributions(entries: seq<(string, Json)>, frameByName: string -> Option<FrameId>,
                         edgeNormal: Vec2 -> Normal): (r: seq<Write>)
    ensures |r| == |entries|
    ensures forall i :: 0 <= i < |entries| ==> r[i] == EntryMesh(entries[i], frameByName, edgeNormal)
  {
    seq(|entries|, i requires 0 <= i < |entries| => EntryMesh(entries[i], frameByName, edgeNormal))
  }

  /** The loop over the document's entries: entries with an unknown frame
      or an unparsable list are skipped, the others stored under their
      frame, a later entry overwriting an earlier one. */
  function StoreEntries(meshes: map<FrameId, ConvexList>, entries: seq<(string, Json)>,
                        frameByName: string -> Option<FrameId>, edgeNormal: Vec2 -> Normal): map<FrameId, ConvexList>
  {
    ApplyWrites(meshes, Contributions(entries, frameByName, edgeNormal))
  }

  /** `loadFromFile`: a repeated path changes nothing; a new path forgets
      every mesh and then stores those of the document, if it is an object. */
  function LoadFromFile(d: Dictionary, path: string, document: Option<Json>,
                        frameByName: string -> Option<FrameId>, edgeNormal: Vec2 -> Normal): (r: Dictionary)
    ensures path == d.lastPath ==> r == d
    ensures path != d.lastPath ==> r.lastPath == path
    ensures r.framesOfSprites == d.framesOfSprites
    ensures path != d.lastPath && !(document.Some? && document.value.JObject?) ==> r.meshes == map[]
    ensures path != d.lastPath && document.Some? && document.value.JObject? ==>
      var ups := Contributions(document.value.entries, frameByName, edgeNormal);
      forall f :: f in r.meshes <==> (exists i :: 0 <= i < |ups| && Writes(ups, i, f))
  {
    if path == d.lastPath then d
    else
      var cleared := d.(lastPath := path, meshes := map[]);
      match document
      case Some(JObject(entries)) =>
        cleared.(meshes := StoreEntries(map[], entries, frameByName, edgeNormal))
      case _ => cleared
  }

  /** Loading the same path twice in a row is the same as loading it once. */
  lemma LoadTwiceIsLoadOnce(d: Dictionary, path: string, doc1: Option<Json>, doc2: Option<Json>,
                            frameByName: string -> Option<FrameId>, edgeNormal: Vec2 -> Normal)
    ensures var once := LoadFromFile(d, path, doc1, frameByName, edgeNormal);
      LoadFromFile(once, path, doc2, frameByName, edgeNormal) == once
  {
  }

  /** Every polygon value of a list value has edges of pairwise different
      normals. */
  predicate ListEdgesApart(v: Json, edgeNormal: Vec2 -> Normal) {
    v.JArray? ==> forall k :: 0 <= k < |v.items| ==> EdgesApartJson(v.items[k], edgeNormal)
  }

  /** When no polygon of the document has two edges with the same normal,
      every stored mesh is made of polygons that keep the line-order
      invariant. */
  lemma StoredMeshesSeparated(entries: seq<(string, Json)>,
                              frameByName: string -> Option<FrameId>, edgeNormal: Vec2 -> Normal)
    ensures (forall i :: 0 <= i < |entries| ==> ListEdgesApart(entries[i].1, edgeNormal)) ==>
      var r := StoreEntries(map[], entries, frameByName, edgeNormal);
      forall f :: f in r ==> forall k :: 0 <= k < |r[f].polygons| ==> Separated(r[f].polygons[k])
  {
    var ups := Contributions(entries, frameByName, edgeNormal);
    var r := ApplyWrites(map[], ups);
    if forall i :: 0 <= i < |entries| ==> ListEdgesApart(entries[i].1, edgeNormal) {
      forall f | f in r
        ensures forall k :: 0 <= k < |r[f].polygons| ==> Separated(r[f].polygons[k])
      {
        var i :| 0 <= i < |ups| && Writes(ups, i, f) && r[f] == ups[i].value.1;
        assert ups[i] == EntryMesh(entries[i], frameByName, edgeNormal);
        EntryMeshSeparated(entries[i], frameByName, edgeNormal);
      }
    }
  }

  /** An entry's mesh, when it has one and its polygons have edges of
      pairwise different normals, is made of separated polygons. */
  lemma EntryMeshSeparated(entry: (string, Json), frameByName: string -> Option<FrameId>, edgeNormal: Vec2 -> Normal)
    ensures var e := EntryMesh(entry, frameByName, edgeNormal);
      e.Some? && ListEdgesApart(entry.1, edgeNormal) ==>
        forall k :: 0 <= k < |e.value.1.polygons| ==> Separated(e.value.1.polygons[k])
  {
  }
}
