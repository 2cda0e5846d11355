/** The packing of a colour's hue, saturation and value into the single
    32-bit word the shader reads (`convertToShaderHSV` in
    src/renderer/Renderer.cpp). */
module ShaderHsv {

  import opened Words

  // ---------------------------------------------------------------------
  // The word layout

  /** `ccHSVValue`. */
  datatype Hsv = Hsv(h: real, s: real, v: real, absoluteSaturation: bool, absoluteBrightness: bool)

  /** The masks, shifts and flag bits of the shader's HSV word
      (`HSV_HUE_MASK`, `HSV_HUE_BIT`, ..., `HSV_SAT_ADD`, `HSV_VAL_ADD`). */
  datatype HsvLayout = HsvLayout(
    hueMask: Word, hueBit: nat,
    satMask: Word, satBit: nat,
    valMask: Word, valBit: nat,
    satAdd: Word, valAdd: Word)

  /** The bits a field occupies once shifted. */
  function Region(mask: Word, bit: nat): Word {
    Shl(mask, bit)
  }

  /** Pairwise disjointness of the three field regions and two flags. */
  predicate RegionsApart(rh: Word, rs: Word, rv: Word, fs: Word, fv: Word) {
    && Disjoint(rh, rs) && Disjoint(rh, rv) && Disjoint(rs, rv) && Disjoint(fs, fv)
    && Disjoint(rh, fs) && Disjoint(rs, fs) && Disjoint(rv, fs)
    && Disjoint(rh, fv) && Disjoint(rs, fv) && Disjoint(rv, fv)
  }

  /** A layout whose field regions do not overlap each other or the two
      flag bits, which are non-zero and do not overlap each other. */
  predicate LayoutSound(l: HsvLayout) {
    && RegionsApart(Region(l.hueMask, l.hueBit), Region(l.satMask, l.satBit), Region(l.valMask, l.valBit), l.satAdd, l.valAdd)
    && NonZero(l.satAdd) && NonZero(l.valAdd)
  }

  /** A mask none of whose bits is pushed out of the word by the shift. */
  predicate MaskFits(mask: Word, bit: nat) {
    forall i :: 0 <= i < WORD_BITS && mask[i] ==> i + bit < WORD_BITS
  }

  // ---------------------------------------------------------------------
  // Packing

  /** The three integers packed: hue offset by 256, saturation and value
      offset by one when absolute, scaled by 127.5, each through the
      float-to-`u32` cast `toU32`. */
  function HsvInts(hsv: Hsv, toU32: real -> Word): (Word, Word, Word) {
    (toU32(hsv.h + 256.0),
     toU32((hsv.s + if hsv.absoluteSaturation then 1.0 else 0.0) * 127.5),
     toU32((hsv.v + if hsv.absoluteBrightness then 1.0 else 0.0) * 127.5))
  }

  /** `(x & mask) << bit`. */
  function Place(x: Word, mask: Word, bit: nat): Word {
    Shl(And(x, mask), bit)
  }

  /** `if (c) ret |= f;` */
  function OrIf(w: Word, c: bool, f: Word): Word {
    if c then Or(w, f) else w
  }

  /** The three integers masked and shifted into their fields, with the
      two flag bits or-ed in. */
  function PackHsv(hue: Word, sat: Word, val: Word, absSat: bool, absVal: bool, l: HsvLayout): Word {
    var fields := Or(Or(Place(hue, l.hueMask, l.hueBit), Place(sat, l.satMask, l.satBit)), Place(val, l.valMask, l.valBit));
    OrIf(OrIf(fields, absSat, l.satAdd), absVal, l.valAdd)
  }

  /** `convertToShaderHSV`. */
  function ConvertToShaderHsv(hsv: Hsv, l: HsvLayout, toU32: real -> Word): Word {
    var (hue, sat, val) := HsvInts(hsv, toU32);
    PackHsv(hue, sat, val, hsv.absoluteSaturation, hsv.absoluteBrightness, l)
  }

  // ---------------------------------------------------------------------
  // Reading the word back

  /** A placed value stays within its field's region. */
  lemma PlaceInRegion(x: Word, mask: Word, bit: nat)
    ensures Within(Place(x, mask, bit), Region(mask, bit))
  {
  }

  /** The saturation flag of a packed word is set exactly when absolute
      saturation was asked for. */
  lemma {:induction false} PackedSaturationFlag(hue: Word, sat: Word, val: Word, absSat: bool, absVal: bool, l: HsvLayout)
    requires LayoutSound(l)
    ensures NonZero(And(PackHsv(hue, sat, val, absSat, absVal, l), l.satAdd)) <==> absSat
  {
    var r := And(PackHsv(hue, sat, val, absSat, absVal, l), l.satAdd);
    PlaceInRegion(hue, l.hueMask, l.hueBit);
    PlaceInRegion(sat, l.satMask, l.satBit);
    PlaceInRegion(val, l.valMask, l.valBit);
    if absSat {
      var i :| 0 <= i < WORD_BITS && l.satAdd[i];
      assert r[i];
    } else {
      forall i | 0 <= i < WORD_BITS
        ensures !r[i]
      {
      }
    }
  }

  /** The brightness flag of a packed word is set exactly when absolute
      brightness was asked for. */
  lemma {:induction false} PackedBrightnessFlag(hue: Word, sat: Word, val: Word, absSat: bool, absVal: bool, l: HsvLayout)
    requires LayoutSound(l)
    ensures NonZero(And(PackHsv(hue, sat, val, absSat, absVal, l), l.valAdd)) <==> absVal
  {
    var r := And(PackHsv(hue, sat, val, absSat, absVal, l), l.valAdd);
    PlaceInRegion(hue, l.hueMask, l.hueBit);
    PlaceInRegion(sat, l.satMask, l.satBit);
    PlaceInRegion(val, l.valMask, l.valBit);
    if absVal {
      var i :| 0 <= i < WORD_BITS && l.valAdd[i];
      assert r[i];
    } else {
      forall i | 0 <= i < WORD_BITS
        ensures !r[i]
      {
      }
    }
  }

  /** Masking a packed word with a field's region leaves exactly that
      field's placed value: the other fields and the flags never leak in. */
  lemma PackedFields(hue: Word, sat: Word, val: Word, absSat: bool, absVal: bool, l: HsvLayout)
    requires LayoutSound(l)
    ensures And(PackHsv(hue, sat, val, absSat, absVal, l), Region(l.hueMask, l.hueBit)) == Place(hue, l.hueMask, l.hueBit)
    ensures And(PackHsv(hue, sat, val, absSat, absVal, l), Region(l.satMask, l.satBit)) == Place(sat, l.satMask, l.satBit)
    ensures And(PackHsv(hue, sat, val, absSat, absVal, l), Region(l.valMask, l.valBit)) == Place(val, l.valMask, l.valBit)
  {
    var w := PackHsv(hue, sat, val, absSat, absVal, l);
    PlaceInRegion(hue, l.hueMask, l.hueBit);
    PlaceInRegion(sat, l.satMask, l.satBit);
    PlaceInRegion(val, l.valMask, l.valBit);
    WordsEqual(And(w, Region(l.hueMask, l.hueBit)), Place(hue, l.hueMask, l.hueBit));
    WordsEqual(And(w, Region(l.satMask, l.satBit)), Place(sat, l.satMask, l.satBit));
    WordsEqual(And(w, Region(l.valMask, l.valBit)), Place(val, l.valMask, l.valBit));
  }

  /** With a mask that fits the word after the shift, a placed field
      shifted back down and masked is the masked value again. */
  lemma PlacedFieldReadsBack(x: Word, mask: Word, bit: nat)
    requires MaskFits(mask, bit)
    ensures And(Shr(Place(x, mask, bit), bit), mask) == And(x, mask)
  {
    WordsEqual(And(Shr(Place(x, mask, bit), bit), mask), And(x, mask));
  }

  /** What the shader decodes from a field of the word. */
  function ReadField(w: Word, mask: Word, bit: nat): Word {
    And(Shr(And(w, Region(mask, bit)), bit), mask)
  }

  /** Round trip: from the word `convertToShaderHSV` produces, each of
      the three integers reads back as itself under its mask, and each
      flag reads back as the colour's own absolute flag. */
  lemma ShaderHsvRoundTrip(hsv: Hsv, l: HsvLayout, toU32: real -> Word)
    requires LayoutSound(l)
    requires MaskFits(l.hueMask, l.hueBit) && MaskFits(l.satMask, l.satBit) && MaskFits(l.valMask, l.valBit)
    ensures ReadField(ConvertToShaderHsv(hsv, l, toU32), l.hueMask, l.hueBit) == And(HsvInts(hsv, toU32).0, l.hueMask)
    ensures ReadField(ConvertToShaderHsv(hsv, l, toU32), l.satMask, l.satBit) == And(HsvInts(hsv, toU32).1, l.satMask)
    ensures ReadField(ConvertToShaderHsv(hsv, l, toU32), l.valMask, l.valBit) == And(HsvInts(hsv, toU32).2, l.valMask)
    ensures NonZero(And(ConvertToShaderHsv(hsv, l, toU32), l.satAdd)) <==> hsv.absoluteSaturation
    ensures NonZero(And(ConvertToShaderHsv(hsv, l, toU32), l.valAdd)) <==> hsv.absoluteBrightness
  {
    var (hue, sat, val) := HsvInts(hsv, toU32);
    PackedFields(hue, sat, val, hsv.absoluteSaturation, hsv.absoluteBrightness, l);
    PackedSaturationFlag(hue, sat, val, hsv.absoluteSaturation, hsv.absoluteBrightness, l);
    PackedBrightnessFlag(hue, sat, val, hsv.absoluteSaturation, hsv.absoluteBrightness, l);
    PlacedFieldReadsBack(hue, l.hueMask, l.hueBit);
    PlacedFieldReadsBack(sat, l.satMask, l.satBit);
    PlacedFieldReadsBack(val, l.valMask, l.valBit);
  }
}
