/** `ObjectSpriteUnpacker` (src/renderer/ObjectSpriteUnpacker.hpp, .cpp):
    flattens an object's sprite trees into the draw-ordered stream of
    (sprite, type, transform) triples handed to the batch. */
module SpriteUnpackers {
  import opened Wrappers
  import opened Geometry

  /** `SpriteType`. */
  datatype SpriteType = Base | Detail | Black | Glow

  /** `SpriteSheet::GLOW`, the sixth sheet. */
  const SHEET_GLOW: int := 5

  /** An affine transform of the plane, laid out as cocos2d's
      `CCAffineTransform`: `x' = a x + c y + tx`, `y' = b x + d y + ty`. */
  datatype Affine = Affine(a: real, b: real, c: real, d: real, tx: real, ty: real)

  function Identity(): Affine {
    Affine(1.0, 0.0, 0.0, 1.0, 0.0, 0.0)
  }

  /** `CCAffineTransformConcat(t1, t2)`: `t1` applied first, then `t2`. */
  function Concat(t1: Affine, t2: Affine): Affine {
    Affine(
      t1.a * t2.a + t1.b * t2.c, t1.a * t2.b + t1.b * t2.d,
      t1.c * t2.a + t1.d * t2.c, t1.c * t2.b + t1.d * t2.d,
      t1.tx * t2.a + t1.ty * t2.c + t2.tx, t1.tx * t2.b + t1.ty * t2.d + t2.ty)
  }

  /** `CCPointApplyAffineTransform`. */
  function Apply(p: Vec2, t: Affine): Vec2 {
    Vec2(t.a * p.x + t.c * p.y + t.tx, t.b * p.x + t.d * p.y + t.ty)
  }

  /** The transform of a chain of node-to-parent transforms, innermost
      first: the accumulated transform the unpacker passes down. */
  function Compose(path: seq<Affine>): Affine
    decreases |path|
  {
    if |path| == 0 then Identity() else Concat(path[0], Compose(path[1..]))
  }

  /** Concatenation applies its factors in order. */
  lemma ConcatApplies(p: Vec2, t1: Affine, t2: Affine)
    ensures Apply(p, Concat(t1, t2)) == Apply(Apply(p, t1), t2)
  {
    var c, q := Concat(t1, t2), Apply(p, t1);
    ConcatRow(t1, t2.a, t2.c, t2.tx, p);
    ConcatRow(t1, t2.b, t2.d, t2.ty, p);
    assert Apply(p, c).x == Apply(q, t2).x;
    assert Apply(p, c).y == Apply(q, t2).y;
  }

  /** One output coordinate of the concatenation: a row `(u, v, w)` of
      `t2` applied after `t1`. */
  lemma ConcatRow(t1: Affine, u: real, v: real, w: real, p: Vec2)
    ensures (t1.a * u + t1.b * v) * p.x + (t1.c * u + t1.d * v) * p.y + (t1.tx * u + t1.ty * v + w)
         == u * (t1.a * p.x + t1.c * p.y + t1.tx) + v * (t1.b * p.x + t1.d * p.y + t1.ty) + w
  {
    assert (t1.a * u + t1.b * v) * p.x == u * (t1.a * p.x) + v * (t1.b * p.x);
    assert (t1.c * u + t1.d * v) * p.y == u * (t1.c * p.y) + v * (t1.d * p.y);
    assert u * (t1.a * p.x + t1.c * p.y + t1.tx) == u * (t1.a * p.x) + u * (t1.c * p.y) + u * t1.tx;
    assert v * (t1.b * p.x + t1.d * p.y + t1.ty) == v * (t1.b * p.x) + v * (t1.d * p.y) + v * t1.ty;
  }

  /** Applying the composed chain applies every factor, innermost first. */
  lemma {:induction false} ComposeApplies(p: Vec2, path: seq<Affine>)
    ensures |path| == 0 ==> Apply(p, Compose(path)) == p
    ensures |path| > 0 ==> Apply(p, Compose(path)) == Apply(Apply(p, path[0]), Compose(path[1..]))
  {
    if |path| > 0 {
      ConcatApplies(p, path[0], Compose(path[1..]));
    }
  }

  /** `getTextureRect`. */
  datatype Rect = Rect(origin: Vec2, width: real, height: real)

  /** A `CCSprite` node: identity, z-order among its siblings, the
      "dont-draw" flag, node-to-parent transform, what the batch reads of
      its texture, and its children in child-list order. */
  datatype Sprite = Sprite(
    id: nat,
    zOrder: int,
    dontDraw: bool,
    local: Affine,
    crop: Rect,
    offsetPosition: Vec2,
    rotated: bool,
    flipX: bool,
    flipY: bool,
    children: seq<Sprite>)

  /** The ids of the object's colour and glow sprites, which retype the
      subtree they head. */
  datatype Marks = Marks(colorId: Option<nat>, glowId: Option<nat>)

  /** One `receiveUnpackedSprite` call; `path` is the chain of node-to-parent
      transforms from the sprite up to the pass's root. */
  datatype Emitted = Emitted(sprite: Sprite, spriteType: SpriteType, path: seq<Affine>)

  /** The type a node is unpacked with: the glow sprite is GLOW, the colour
      sprite DETAIL, every other node keeps its parent's type. */
  function TypeOf(s: Sprite, inherited: SpriteType, marks: Marks): (r: SpriteType)
    ensures r == Glow <==> marks.glowId == Some(s.id) || (r == inherited && inherited == Glow)
    ensures marks.glowId != Some(s.id) && marks.colorId == Some(s.id) ==> r == Detail
    ensures marks.glowId != Some(s.id) && marks.colorId != Some(s.id) ==> r == inherited
  {
    if marks.glowId == Some(s.id) then Glow
    else if marks.colorId == Some(s.id) then Detail
    else inherited
  }

  /** `n` is `s` or a node below it. */
  predicate InTree(n: Sprite, s: Sprite)
    decreases s
  {
    n == s || exists j :: 0 <= j < |s.children| && InTree(n, s.children[j])
  }

  /** `n` is in the subtree of a child of `s` at index `i` or later that lies
      on the chosen side: z-order below zero when `negative`, otherwise at
      least zero. */
  predicate InSide(n: Sprite, s: Sprite, i: nat, negative: bool) {
    exists j :: i <= j < |s.children| && (s.children[j].zOrder < 0) == negative && InTree(n, s.children[j])
  }

  /** The number of nodes of `s` that are drawn. */
  function Drawables(s: Sprite): nat
    decreases s, 1
  {
    (if s.dontDraw then 0 else 1) + ChildDrawables(s, 0)
  }

  /** The number of drawn nodes below children `i ..` of `s`. */
  function ChildDrawables(s: Sprite, i: nat): nat
    requires i <= |s.children|
    decreases s, 0, |s.children| - i
  {
    if i == |s.children| then 0 else Drawables(s.children[i]) + ChildDrawables(s, i + 1)
  }

  /** `unpackSpriteRecursively`: children behind first, then the node unless
      it is not drawn, then the children in front. Every triple emitted is a
      drawn node of the tree, its chain starts with its own transform and
      ends with the chain the pass was given. */
  function Unpack(s: Sprite, acc: seq<Affine>, inherited: SpriteType, marks: Marks): (r: seq<Emitted>)
    ensures forall e :: e in r ==> InTree(e.sprite, s) && !e.sprite.dontDraw
    ensures forall e :: e in r ==>
      |e.path| > |acc| && e.path[0] == e.sprite.local && e.path[|e.path| - |acc|..] == acc
    ensures inherited != Black ==> forall e :: e in r ==> e.spriteType != Black
    decreases s, 1
  {
    var path := [s.local] + acc;
    var t := TypeOf(s, inherited, marks);
    var own := if s.dontDraw then [] else [Emitted(s, t, path)];
    assert path[|path| - |acc|..] == acc;
    UnpackSide(s, 0, path, t, marks, true) + own + UnpackSide(s, 0, path, t, marks, false)
  }

  /** One of the two child loops of `unpackSpriteRecursively`, from child
      `i` on: the children on the chosen side, in child-list order. */
  function UnpackSide(s: Sprite, i: nat, path: seq<Affine>, t: SpriteType, marks: Marks, negative: bool)
    : (r: seq<Emitted>)
    requires i <= |s.children|
    ensures forall e :: e in r ==> InSide(e.sprite, s, i, negative) && !e.sprite.dontDraw
    ensures forall e :: e in r ==>
      |e.path| > |path| && e.path[0] == e.sprite.local && e.path[|e.path| - |path|..] == path
    ensures t != Black ==> forall e :: e in r ==> e.spriteType != Black
    decreases s, 0, |s.children| - i
  {
    if i == |s.children| then []
    else
      var c := s.children[i];
      var here := if (c.zOrder < 0) == negative then Unpack(c, path, t, marks) else [];
      var rest := UnpackSide(s, i + 1, path, t, marks, negative);
      assert forall e :: e in here ==> InSide(e.sprite, s, i, negative);
      here + rest
  }

  /** The two child loops together emit every drawn node below the
      children. */
  lemma {:induction false} UnpackSidesCount(s: Sprite, i: nat, path: seq<Affine>, t: SpriteType, marks: Marks)
    requires i <= |s.children|
    ensures |UnpackSide(s, i, path, t, marks, true)| + |UnpackSide(s, i, path, t, marks, false)|
      == ChildDrawables(s, i)
    decreases s, 0, |s.children| - i
  {
    if i < |s.children| {
      UnpackCount(s.children[i], path, t, marks);
      UnpackSidesCount(s, i + 1, path, t, marks);
    }
  }

  /** A pass emits exactly as many triples as the tree has drawn nodes. */
  lemma {:induction false} UnpackCount(s: Sprite, acc: seq<Affine>, inherited: SpriteType, marks: Marks)
    ensures |Unpack(s, acc, inherited, marks)| == Drawables(s)
    decreases s, 1
  {
    UnpackSidesCount(s, 0, [s.local] + acc, TypeOf(s, inherited, marks), marks);
  }

  /** Every drawn node of the tree is emitted. */
  lemma {:induction false} UnpackComplete(s: Sprite, acc: seq<Affine>, inherited: SpriteType, marks: Marks, n: Sprite)
    requires InTree(n, s) && !n.dontDraw
    ensures exists e :: e in Unpack(s, acc, inherited, marks) && e.sprite == n
    decreases s, 1
  {
    var path := [s.local] + acc;
    var t := TypeOf(s, inherited, marks);
    if n == s {
      assert Unpack(s, acc, inherited, marks)[|UnpackSide(s, 0, path, t, marks, true)|] == Emitted(s, t, path);
    } else {
      var j :| 0 <= j < |s.children| && InTree(n, s.children[j]);
      var negative := s.children[j].zOrder < 0;
      UnpackSideComplete(s, 0, path, t, marks, negative, j, n);
    }
  }

  lemma {:induction false} UnpackSideComplete(s: Sprite, i: nat, path: seq<Affine>, t: SpriteType, marks: Marks,
                                              negative: bool, j: nat, n: Sprite)
    requires i <= j < |s.children| && (s.children[j].zOrder < 0) == negative
    requires InTree(n, s.children[j]) && !n.dontDraw
    ensures exists e :: e in UnpackSide(s, i, path, t, marks, negative) && e.sprite == n
    decreases s, 0, |s.children| - i
  {
    var r := UnpackSide(s, i, path, t, marks, negative);
    if i == j {
      UnpackComplete(s.children[j], path, t, marks, n);
      var e :| e in Unpack(s.children[j], path, t, marks) && e.sprite == n;
      assert e in r;
    } else {
      UnpackSideComplete(s, i + 1, path, t, marks, negative, j, n);
      var e :| e in UnpackSide(s, i + 1, path, t, marks, negative) && e.sprite == n;
      assert e in r;
    }
  }

  /** The number of drawn nodes below the children of `s` from `i` on that
      lie on the chosen side. */
  function SideDrawables(s: Sprite, i: nat, negative: bool): nat
    requires i <= |s.children|
    decreases |s.children| - i
  {
    if i == |s.children| then 0
    else
      var here := if (s.children[i].zOrder < 0) == negative then Drawables(s.children[i]) else 0;
      here + SideDrawables(s, i + 1, negative)
  }

  lemma {:induction false} UnpackSideCount(s: Sprite, i: nat, path: seq<Affine>, t: SpriteType, marks: Marks, negative: bool)
    requires i <= |s.children|
    ensures |UnpackSide(s, i, path, t, marks, negative)| == SideDrawables(s, i, negative)
    decreases |s.children| - i
  {
    if i < |s.children| {
      UnpackCount(s.children[i], path, t, marks);
      UnpackSideCount(s, i + 1, path, t, marks, negative);
    }
  }

  /** Positions of a three-part concatenation. */
  lemma ThreeParts(x: seq<Emitted>, y: seq<Emitted>, z: seq<Emitted>)
    ensures forall p :: 0 <= p < |x| ==> (x + y + z)[p] in x
    ensures forall p :: |x| <= p < |x| + |y| ==> (x + y + z)[p] == y[p - |x|]
    ensures forall p :: |x| + |y| <= p < |x + y + z| ==> (x + y + z)[p] in z
  {
    forall p | 0 <= p < |x| ensures (x + y + z)[p] in x {
      assert (x + y + z)[p] == x[p];
    }
    forall p | |x| + |y| <= p < |x + y + z| ensures (x + y + z)[p] in z {
      assert (x + y + z)[p] == z[p - |x| - |y|];
    }
  }

  /** Positions of a two-part concatenation. */
  lemma TwoParts(x: seq<Emitted>, y: seq<Emitted>)
    ensures forall p :: 0 <= p < |x| ==> (x + y)[p] in x
    ensures forall p :: |x| <= p < |x + y| ==> (x + y)[p] in y
  {
    forall p | 0 <= p < |x| ensures (x + y)[p] in x {
      assert (x + y)[p] == x[p];
    }
    forall p | |x| <= p < |x + y| ensures (x + y)[p] in y {
      assert (x + y)[p] == y[p - |x|];
    }
  }

  /** Draw order within a pass: the nodes under children with negative
      z-order come first, then the node itself when it is drawn, then the
      nodes under the other children. */
  lemma UnpackZOrderSplit(s: Sprite, acc: seq<Affine>, inherited: SpriteType, marks: Marks)
    ensures var r, k := Unpack(s, acc, inherited, marks), SideDrawables(s, 0, true);
      var own := if s.dontDraw then 0 else 1;
      k + own <= |r| &&
      (forall p :: 0 <= p < k ==> InSide(r[p].sprite, s, 0, true)) &&
      (!s.dontDraw ==> r[k] == Emitted(s, TypeOf(s, inherited, marks), [s.local] + acc)) &&
      (forall p :: k + own <= p < |r| ==> InSide(r[p].sprite, s, 0, false))
  {
    var path := [s.local] + acc;
    var t := TypeOf(s, inherited, marks);
    var behind := UnpackSide(s, 0, path, t, marks, true);
    var front := UnpackSide(s, 0, path, t, marks, false);
    var own := if s.dontDraw then [] else [Emitted(s, t, path)];
    UnpackSideCount(s, 0, path, t, marks, true);
    assert Unpack(s, acc, inherited, marks) == behind + own + front;
    ThreeParts(behind, own, front);
  }

  /** Neither the node nor anything below it is the colour or the glow
      sprite. */
  predicate Unmarked(s: Sprite, marks: Marks)
    decreases s
  {
    marks.colorId != Some(s.id) && marks.glowId != Some(s.id) &&
    forall j :: 0 <= j < |s.children| ==> Unmarked(s.children[j], marks)
  }

  /** In a tree below its root holding neither the colour nor the glow
      sprite, every node is unpacked with the root's type. */
  lemma {:induction false} UnpackInheritsType(s: Sprite, acc: seq<Affine>, inherited: SpriteType, marks: Marks)
    requires forall j :: 0 <= j < |s.children| ==> Unmarked(s.children[j], marks)
    ensures forall e :: e in Unpack(s, acc, inherited, marks) ==> e.spriteType == TypeOf(s, inherited, marks)
    decreases s, 1
  {
    var t := TypeOf(s, inherited, marks);
    UnpackSideInherits(s, 0, [s.local] + acc, t, marks, true);
    UnpackSideInherits(s, 0, [s.local] + acc, t, marks, false);
  }

  lemma {:induction false} UnpackSideInherits(s: Sprite, i: nat, path: seq<Affine>, t: SpriteType, marks: Marks, negative: bool)
    requires i <= |s.children|
    requires forall j :: 0 <= j < |s.children| ==> Unmarked(s.children[j], marks)
    ensures forall e :: e in UnpackSide(s, i, path, t, marks, negative) ==> e.spriteType == t
    decreases s, 0, |s.children| - i
  {
    if i < |s.children| {
      var c := s.children[i];
      assert Unmarked(c, marks);
      assert TypeOf(c, t, marks) == t;
      UnpackInheritsType(c, path, t, marks);
      UnpackSideInherits(s, i + 1, path, t, marks, negative);
    }
  }

  /** The object as the unpacker sees it: the object's own sprite tree, the
      optional colour and glow sprites with their trees, whether the colour
      sprite's parent is the object, and whether it draws in front. */
  datatype ObjectSprites = ObjectSprites(
    root: Sprite,
    color: Option<Sprite>,
    colorParentIsObject: bool,
    colorInFront: bool,
    glow: Option<Sprite>,
    parentMode: int)

  function MarksOf(o: ObjectSprites): Marks {
    Marks(
      if o.color.Some? then Some(o.color.value.id) else None,
      if o.glow.Some? then Some(o.glow.value.id) else None)
  }

  /** The colour sprite gets its own pass only when it exists and is not a
      child of the object (a child is reached by the object's own pass). */
  predicate ColorPass(o: ObjectSprites) {
    o.color.Some? && !o.colorParentIsObject
  }

  /** A pass from a root with the identity transform and type BASE. */
  function Pass(o: ObjectSprites, s: Option<Sprite>, on: bool): (r: seq<Emitted>)
    ensures !on || s.None? ==> r == []
  {
    if on && s.Some? then Unpack(s.value, [], Base, MarksOf(o)) else []
  }

  /** `unpackObject`: the glow pass, the colour pass if it is behind, the
      object's own pass, the colour pass if it is in front. */
  function UnpackObject(o: ObjectSprites): (r: seq<Emitted>)
    ensures |r| == |Pass(o, o.glow, true)| + |Pass(o, o.color, ColorPass(o))| + |Pass(o, Some(o.root), true)|
    ensures forall e :: e in r ==> e.spriteType != Black
  {
    Pass(o, o.glow, true)
      + (Pass(o, o.color, ColorPass(o) && !o.colorInFront) + Pass(o, Some(o.root), true))
      + Pass(o, o.color, ColorPass(o) && o.colorInFront)
  }

  /** The passes in order: the glow tree's nodes first, then the colour
      tree's when it is behind, the object's own, and the colour tree's
      when it is in front; every node of each is drawn once per pass. */
  lemma UnpackObjectOrder(o: ObjectSprites)
    ensures var r := UnpackObject(o);
      var g := if o.glow.Some? then Drawables(o.glow.value) else 0;
      var c := if ColorPass(o) then Drawables(o.color.value) else 0;
      var behind := if o.colorInFront then 0 else c;
      var b := Drawables(o.root);
      |r| == g + c + b &&
      (forall p :: 0 <= p < g ==> InTree(r[p].sprite, o.glow.value)) &&
      (forall p :: g <= p < g + behind ==> InTree(r[p].sprite, o.color.value)) &&
      (forall p :: g + behind <= p < g + behind + b ==> InTree(r[p].sprite, o.root)) &&
      (forall p :: g + behind + b <= p < |r| ==> InTree(r[p].sprite, o.color.value))
  {
    var m := MarksOf(o);
    var gp := Pass(o, o.glow, true);
    var cb := Pass(o, o.color, ColorPass(o) && !o.colorInFront);
    var bp := Pass(o, Some(o.root), true);
    var cf := Pass(o, o.color, ColorPass(o) && o.colorInFront);
    if o.glow.Some? { UnpackCount(o.glow.value, [], Base, m); }
    if ColorPass(o) { UnpackCount(o.color.value, [], Base, m); }
    UnpackCount(o.root, [], Base, m);
    ThreeParts(gp, cb + bp, cf);
    TwoParts(cb, bp);
  }

  /** The glow pass unpacks its whole tree as GLOW when the colour sprite is
      not inside it. */
  lemma GlowPassIsGlow(o: ObjectSprites)
    requires o.glow.Some?
    requires forall j :: 0 <= j < |o.glow.value.children| ==> Unmarked(o.glow.value.children[j], MarksOf(o))
    ensures forall e :: e in Pass(o, o.glow, true) ==> e.spriteType == Glow
  {
    UnpackInheritsType(o.glow.value, [], Base, MarksOf(o));
  }

  /** `getSpritesheetOfObject`: GLOW sprites come from the glow sheet, all
      others from the object's parent mode. */
  function SheetOf(parentMode: int, t: SpriteType): (r: int)
    ensures t == Glow ==> r == SHEET_GLOW
    ensures t != Glow ==> r == parentMode
  {
    if t == Glow then SHEET_GLOW else parentMode
  }

  /** Every sprite of the glow pass resolves to the glow sheet. */
  lemma GlowPassUsesGlowSheet(o: ObjectSprites)
    requires o.glow.Some?
    requires forall j :: 0 <= j < |o.glow.value.children| ==> Unmarked(o.glow.value.children[j], MarksOf(o))
    ensures forall e :: e in Pass(o, o.glow, true) ==> SheetOf(o.parentMode, e.spriteType) == SHEET_GLOW
  {
    GlowPassIsGlow(o);
  }
}
