/** The register-field encoders of the GPU enumerations header.
    Each macro is a function over 32-bit words that follows the C expression
    operator for operator; the lemmas state where each field lands, that
    fields of one register do not overlap, and that the packed inputs can be
    read back. */
module GpuMacros {
  import opened Bits
  import opened GpuEnums

  // ---------------------------------------------------------------------------
  // Texture filter and wrap parameters

  /** GPU_TEXTURE_MAG_FILTER: the low bit of `v` in bit 1. */
  function TextureMagFilter(v: bv32): (r: bv32)
    ensures r == 0 || r == 2
    ensures r >> 1 == v & 1
  {
    (v & 0x1) << 1
  }

  /** GPU_TEXTURE_MIN_FILTER: the low bit of `v` in bit 2. */
  function TextureMinFilter(v: bv32): (r: bv32)
    ensures r == 0 || r == 4
    ensures r >> 2 == v & 1
  {
    (v & 0x1) << 2
  }

  /** GPU_TEXTURE_WRAP_S: the low two bits of `v` in bits 12-13. */
  function TextureWrapS(v: bv32): (r: bv32)
    ensures r & !0x3000 == 0
    ensures r >> 12 == v & 3
  {
    (v & 0x3) << 12
  }

  /** GPU_TEXTURE_WRAP_T: the low two bits of `v` in bits 8-9. */
  function TextureWrapT(v: bv32): (r: bv32)
    ensures r & !0x300 == 0
    ensures r >> 8 == v & 3
  {
    (v & 0x3) << 8
  }

  /** A texture parameter word combining the four fields. */
  function TextureParams(mag: bv32, min: bv32, wrapS: bv32, wrapT: bv32): bv32
  {
    TextureMagFilter(mag) | TextureMinFilter(min) | TextureWrapS(wrapS) | TextureWrapT(wrapT)
  }

  /** The makers mask their input before shifting: only the field's width of
      the argument matters. */
  lemma TextureMakersMaskInput(v: bv32)
    ensures TextureMagFilter(v) == TextureMagFilter(v & 1)
    ensures TextureMinFilter(v) == TextureMinFilter(v & 1)
    ensures TextureWrapS(v) == TextureWrapS(v & 3)
    ensures TextureWrapT(v) == TextureWrapT(v & 3)
  {
  }

  /** The four fields are pairwise disjoint whatever the arguments. */
  lemma TextureFieldsDisjoint(mag: bv32, min: bv32, wrapS: bv32, wrapT: bv32)
    ensures TextureMagFilter(mag) & TextureMinFilter(min) == 0
    ensures TextureMagFilter(mag) & TextureWrapS(wrapS) == 0
    ensures TextureMagFilter(mag) & TextureWrapT(wrapT) == 0
    ensures TextureMinFilter(min) & TextureWrapS(wrapS) == 0
    ensures TextureMinFilter(min) & TextureWrapT(wrapT) == 0
    ensures TextureWrapS(wrapS) & TextureWrapT(wrapT) == 0
  {
  }

  /** Each field of the combined word reads back as the masked input, and no
      bit outside the four fields is set. */
  lemma TextureParamsRoundTrip(mag: bv32, min: bv32, wrapS: bv32, wrapT: bv32)
    ensures var w := TextureParams(mag, min, wrapS, wrapT);
      && (w >> 1) & 1 == mag & 1
      && (w >> 2) & 1 == min & 1
      && (w >> 12) & 3 == wrapS & 3
      && (w >> 8) & 3 == wrapT & 3
      && w & !0x3306 == 0
  {
  }

  /** A word built from enumeration members determines those members. */
  lemma TextureParamsInjective(mag: TextureFilter, min: TextureFilter, s: TextureWrap, t: TextureWrap,
                               mag': TextureFilter, min': TextureFilter, s': TextureWrap, t': TextureWrap)
    ensures TextureParams(mag.Code(), min.Code(), s.Code(), t.Code())
              == TextureParams(mag'.Code(), min'.Code(), s'.Code(), t'.Code())
            <==> mag == mag' && min == min' && s == s' && t == t'
  {
    TextureParamsRoundTrip(mag.Code(), min.Code(), s.Code(), t.Code());
    TextureParamsRoundTrip(mag'.Code(), min'.Code(), s'.Code(), t'.Code());
    TextureFilterCodeInjective(mag, mag');
    TextureFilterCodeInjective(min, min');
    TextureWrapCodeInjective(s, s');
    TextureWrapCodeInjective(t, t');
  }

  // ---------------------------------------------------------------------------
  // Texture combiner buffer write configuration

  /** GPU_TEV_BUFFER_WRITE_CONFIG: stage k's flag in bit k; the inputs are not
      masked. */
  function TevBufferWriteConfig(stage0: bv32, stage1: bv32, stage2: bv32, stage3: bv32): (r: bv32)
    ensures r & 1 == stage0 & 1
  {
    stage0 | (stage1 << 1) | (stage2 << 2) | (stage3 << 3)
  }

  /** With one-bit flags the result is a 4-bit field whose bit k is stage k. */
  lemma TevBufferWriteConfigBits(stage0: bv32, stage1: bv32, stage2: bv32, stage3: bv32)
    requires stage0 <= 1 && stage1 <= 1 && stage2 <= 1 && stage3 <= 1
    ensures var r := TevBufferWriteConfig(stage0, stage1, stage2, stage3);
      && r < 16
      && r & 1 == stage0
      && (r >> 1) & 1 == stage1
      && (r >> 2) & 1 == stage2
      && (r >> 3) & 1 == stage3
  {
  }

  /** Without the one-bit precondition a flag spills into the next stage. */
  lemma TevBufferWriteConfigUnmasked()
    ensures TevBufferWriteConfig(2, 0, 0, 0) == TevBufferWriteConfig(0, 1, 0, 0)
  {
  }

  // ---------------------------------------------------------------------------
  // Vertex attribute format

  /** GPU_ATTRIBFMT: for attribute `i`, the component count minus one in bits
      2-3 and the low two bits of the format in bits 0-1 of field `i`. The C
      expression is undefined for `n == 0` (a negative left operand) and for
      shifts of 32 or more. */
  function AttribFmt(i: bv32, n: bv32, f: bv32): bv32
    requires i < 8 && 1 <= n
  {
    (((n - 1) << 2) | (f & 3)) << (i * 4)
  }

  /** With at most four components, only the bits of field `i` are set. */
  lemma AttribFmtInField(i: bv32, n: bv32, f: bv32)
    requires i < 8 && 1 <= n <= 4
    ensures AttribFmt(i, n, f) & !NibbleMask(i) == 0
  {
  }

  /** With at most four components, field `i` of the parameter holds the
      count minus one in bits 2-3 and the low two bits of the format in
      bits 0-1. */
  lemma AttribFmtOwnField(i: bv32, n: bv32, f: bv32)
    requires i < 8 && 1 <= n <= 4
    ensures Nibble(AttribFmt(i, n, f), i) == ((n - 1) << 2) | (f & 3)
  {
    NibbleShift(AttribFmt(i, n, f), i);
  }

  /** The count and the low two bits of the format can be read back. */
  lemma AttribFmtRecovers(i: bv32, n: bv32, f: bv32)
    requires i < 8 && 1 <= n <= 4
    ensures (Nibble(AttribFmt(i, n, f), i) >> 2) + 1 == n
    ensures Nibble(AttribFmt(i, n, f), i) & 3 == f & 3
  {
    AttribFmtOwnField(i, n, f);
  }

  /** With at most four components, every field other than `i` is 0. */
  lemma AttribFmtOtherField(i: bv32, n: bv32, f: bv32, k: bv32)
    requires i < 8 && 1 <= n <= 4 && k < 8 && k != i
    ensures Nibble(AttribFmt(i, n, f), k) == 0
  {
    NibbleShift(AttribFmt(i, n, f), k);
  }

  /** The count is not masked: five components of attribute 0 read as an
      attribute 1 of one unsigned-byte component. */
  lemma AttribFmtSpills()
    ensures AttribFmt(0, 5, 0) == AttribFmt(1, 1, UnsignedByte.Code())
  {
  }

  /** Attributes with distinct indices occupy disjoint fields. */
  lemma AttribFmtDisjoint(i: bv32, n: bv32, f: bv32, j: bv32, m: bv32, g: bv32)
    requires i < 8 && 1 <= n <= 4 && j < 8 && 1 <= m <= 4 && i != j
    ensures AttribFmt(i, n, f) & AttribFmt(j, m, g) == 0
  {
  }

  /** One vertex attribute: its component count (1 to 4) and format. */
  datatype Attribute = Attribute(size: bv32, format: Format)

  predicate ValidAttributes(attrs: seq<Attribute>)
  {
    |attrs| <= 8 && forall k :: 0 <= k < |attrs| ==> 1 <= attrs[k].size <= 4
  }

  /** The attribute-format word: one GPU_ATTRIBFMT per attribute, ORed
      together, attribute k at index k. */
  function AttribFmtWord(attrs: seq<Attribute>): bv32
    requires ValidAttributes(attrs)
  {
    if attrs == [] then 0
    else
      var j := |attrs| - 1;
      AttribFmtWord(attrs[..j]) | AttribFmt(FieldIndex(j), attrs[j].size, attrs[j].format.Code())
  }

  /** Reads `count` attributes back from an attribute-format word. */
  function DecodeAttribFmtWord(w: bv32, count: nat): (attrs: seq<Attribute>)
    requires count <= 8
    ensures |attrs| == count && ValidAttributes(attrs)
  {
    if count == 0 then []
    else
      var nib := Nibble(w, FieldIndex(count - 1));
      DecodeAttribFmtWord(w, count - 1) + [Attribute((nib >> 2) + 1, FormatOf(nib & 3))]
  }

  /** One step of the fold: the word of the attributes before the last,
      ORed with the last attribute's parameter. */
  lemma AttribFmtWordStep(attrs: seq<Attribute>)
    requires ValidAttributes(attrs) && attrs != []
    ensures ValidAttributes(attrs[..|attrs| - 1])
    ensures var j := |attrs| - 1;
      AttribFmtWord(attrs) == AttribFmtWord(attrs[..j]) | AttribFmt(FieldIndex(j), attrs[j].size, attrs[j].format.Code())
  {
    assert ValidAttributes(attrs[..|attrs| - 1]);
  }

  /** ORing in a parameter for index `i` leaves every other field unchanged. */
  lemma OrAttribFmtOtherField(x: bv32, i: bv32, n: bv32, f: bv32, k: bv32)
    requires i < 8 && 1 <= n <= 4 && k < 8 && k != i
    ensures Nibble(x | AttribFmt(i, n, f), k) == Nibble(x, k)
  {
    NibbleShift(x | AttribFmt(i, n, f), k);
    NibbleShift(x, k);
  }

  /** ORing a parameter for index `i` into a word whose field `i` is 0 puts
      the parameter's field there. */
  lemma OrAttribFmtOwnField(x: bv32, i: bv32, n: bv32, f: bv32)
    requires i < 8 && 1 <= n <= 4 && Nibble(x, i) == 0
    ensures Nibble(x | AttribFmt(i, n, f), i) == ((n - 1) << 2) | (f & 3)
  {
    NibbleShift(x | AttribFmt(i, n, f), i);
    NibbleShift(x, i);
  }

  /** Adding an attribute leaves every other field unchanged. */
  lemma AttribFmtWordOther(attrs: seq<Attribute>, k: nat)
    requires ValidAttributes(attrs) && attrs != [] && k < 8 && k != |attrs| - 1
    ensures ValidAttributes(attrs[..|attrs| - 1])
    ensures Nibble(AttribFmtWord(attrs), FieldIndex(k)) == Nibble(AttribFmtWord(attrs[..|attrs| - 1]), FieldIndex(k))
  {
    var j := |attrs| - 1;
    AttribFmtWordStep(attrs);
    FieldIndexInjective(j, k);
    OrAttribFmtOtherField(AttribFmtWord(attrs[..j]), FieldIndex(j), attrs[j].size, attrs[j].format.Code(), FieldIndex(k));
  }

  /** Fields past the last attribute are 0. */
  lemma {:induction false} AttribFmtWordBeyond(attrs: seq<Attribute>, k: nat)
    requires ValidAttributes(attrs) && |attrs| <= k < 8
    ensures Nibble(AttribFmtWord(attrs), FieldIndex(k)) == 0
  {
    if attrs != [] {
      AttribFmtWordOther(attrs, k);
      AttribFmtWordBeyond(attrs[..|attrs| - 1], k);
    } else {
      NibbleShift(0, FieldIndex(k));
    }
  }

  /** The 4-bit field GPU_ATTRIBFMT gives one attribute. */
  function AttribField(a: Attribute): bv32
  {
    ((a.size - 1) << 2) | (a.format.Code() & 3)
  }

  /** The last attribute's field holds that attribute. */
  lemma AttribFmtWordLast(attrs: seq<Attribute>)
    requires ValidAttributes(attrs) && attrs != []
    ensures Nibble(AttribFmtWord(attrs), FieldIndex(|attrs| - 1)) == AttribField(attrs[|attrs| - 1])
  {
    var j := |attrs| - 1;
    AttribFmtWordStep(attrs);
    AttribFmtWordBeyond(attrs[..j], j);
    OrAttribFmtOwnField(AttribFmtWord(attrs[..j]), FieldIndex(j), attrs[j].size, attrs[j].format.Code());
  }

  /** Field k of the word holds exactly attribute k's field. */
  lemma {:induction false} AttribFmtWordField(attrs: seq<Attribute>, k: nat)
    requires ValidAttributes(attrs) && k < |attrs|
    ensures Nibble(AttribFmtWord(attrs), FieldIndex(k)) == AttribField(attrs[k])
  {
    var j := |attrs| - 1;
    if k < j {
      AttribFmtWordOther(attrs, k);
      AttribFmtWordField(attrs[..j], k);
      assert attrs[..j][k] == attrs[k];
    } else {
      AttribFmtWordLast(attrs);
    }
  }

  /** The count and the format can be read back from an attribute's field. */
  lemma AttribFieldRecovers(a: Attribute)
    requires 1 <= a.size <= 4
    ensures AttribField(a) < 16
    ensures (AttribField(a) >> 2) + 1 == a.size
    ensures FormatOf(AttribField(a) & 3) == a.format
  {
    FormatCodeInjective(FormatOf(AttribField(a) & 3), a.format);
  }

  /** Decoding an attribute-format word returns the attributes it was built from. */
  lemma {:induction false} AttribFmtWordRoundTrip(attrs: seq<Attribute>)
    requires ValidAttributes(attrs)
    ensures DecodeAttribFmtWord(AttribFmtWord(attrs), |attrs|) == attrs
  {
    var w := AttribFmtWord(attrs);
    var d := DecodeAttribFmtWord(w, |attrs|);
    forall k | 0 <= k < |attrs|
      ensures d[k] == attrs[k]
    {
      DecodeAt(w, |attrs|, k);
      AttribFmtWordField(attrs, k);
      AttribFieldRecovers(attrs[k]);
    }
  }

  /** Element k of a decoded word comes from field k. */
  lemma {:induction false} DecodeAt(w: bv32, count: nat, k: nat)
    requires count <= 8 && k < count
    ensures var nib := Nibble(w, FieldIndex(k));
      DecodeAttribFmtWord(w, count)[k] == Attribute((nib >> 2) + 1, FormatOf(nib & 3))
  {
    if k < count - 1 {
      DecodeAt(w, count - 1, k);
    }
  }

  // ---------------------------------------------------------------------------
  // Texture combiner sources and operands

  /** GPU_TEVSOURCES: three sources in fields 0, 1 and 2. */
  function TevSources(a: bv32, b: bv32, c: bv32): (r: bv32)
    ensures a < 16 && b < 16 && c < 16 ==>
      r < 0x1000 && Nibble(r, 0) == a && Nibble(r, 1) == b && Nibble(r, 2) == c
  {
    (a) | (b << 4) | (c << 8)
  }

  /** GPU_TEVOPERANDS: three operands in fields 0, 1 and 2. */
  function TevOperands(a: bv32, b: bv32, c: bv32): (r: bv32)
    ensures a < 16 && b < 16 && c < 16 ==>
      r < 0x1000 && Nibble(r, 0) == a && Nibble(r, 1) == b && Nibble(r, 2) == c
  {
    (a) | (b << 4) | (c << 8)
  }

  /** A source word determines its three combiner sources. */
  lemma TevSourcesInjective(a: TevSrc, b: TevSrc, c: TevSrc, a': TevSrc, b': TevSrc, c': TevSrc)
    ensures TevSources(a.Code(), b.Code(), c.Code()) == TevSources(a'.Code(), b'.Code(), c'.Code())
            <==> a == a' && b == b' && c == c'
  {
    TevSrcCodeInjective(a, a');
    TevSrcCodeInjective(b, b');
    TevSrcCodeInjective(c, c');
  }

  /** An RGB operand word determines its three operands. */
  lemma TevOperandsRgbInjective(a: TevOpRgb, b: TevOpRgb, c: TevOpRgb, a': TevOpRgb, b': TevOpRgb, c': TevOpRgb)
    ensures TevOperands(a.Code(), b.Code(), c.Code()) == TevOperands(a'.Code(), b'.Code(), c'.Code())
            <==> a == a' && b == b' && c == c'
  {
    var w, w' := TevOperands(a.Code(), b.Code(), c.Code()), TevOperands(a'.Code(), b'.Code(), c'.Code());
    if w == w' {
      assert a.Code() == a'.Code() && b.Code() == b'.Code() && c.Code() == c'.Code();
      TevOpRgbCodeInjective(a, a');
      TevOpRgbCodeInjective(b, b');
      TevOpRgbCodeInjective(c, c');
    }
  }

  /** Every word below 0x1000 is the RGB operand word of some operand triple. */
  lemma TevOperandsRgbOnto(w: bv32)
    requires w < 0x1000
    ensures var a, b, c := TevOpRgbOf(Nibble(w, 0)), TevOpRgbOf(Nibble(w, 1)), TevOpRgbOf(Nibble(w, 2));
      TevOperands(a.Code(), b.Code(), c.Code()) == w
  {
  }

  /** An alpha operand word determines its three operands. */
  lemma TevOperandsAlphaInjective(a: TevOpA, b: TevOpA, c: TevOpA, a': TevOpA, b': TevOpA, c': TevOpA)
    ensures TevOperands(a.Code(), b.Code(), c.Code()) == TevOperands(a'.Code(), b'.Code(), c'.Code())
            <==> a == a' && b == b' && c == c'
  {
    TevOpACodeInjective(a, a');
    TevOpACodeInjective(b, b');
    TevOpACodeInjective(c, c');
  }

  // ---------------------------------------------------------------------------
  // Light environment layer configuration

  /** GPU_LIGHT_ENV_LAYER_CONFIG: `n`, except that 7 becomes 8 (the C
      comparison `(n)==7` adds 1 or 0). */
  function LightEnvLayerConfig(n: bv32): (r: bv32)
    ensures r != 7
    ensures r == n || (n == 7 && r == 8)
  {
    n + FromBool(n == 7)
  }

  /** On the configurations 0..7 the fix-up loses nothing. */
  lemma LightEnvLayerConfigInjective(x: bv32, y: bv32)
    requires x < 8 && y < 8
    ensures LightEnvLayerConfig(x) == LightEnvLayerConfig(y) <==> x == y
    ensures LightEnvLayerConfig(x) <= 8
  {
  }

  /** Past 7 it does: 7 and 8 give the same parameter. */
  lemma LightEnvLayerConfigCollides()
    ensures LightEnvLayerConfig(7) == LightEnvLayerConfig(8)
  {
  }

  // ---------------------------------------------------------------------------
  // LC1 bit groups: one byte per group, one bit per light

  /** GPU_LC1_SHADOWBIT: BIT(n). */
  function Lc1ShadowBit(n: bv32): (r: bv32)
    requires n < 32
    ensures r >> n == 1 && r & (Bit(n) - 1) == 0
  {
    Bit(n)
  }

  /** GPU_LC1_SPOTBIT: BIT(n + 8). */
  function Lc1SpotBit(n: bv32): (r: bv32)
    requires n < 24
    ensures r >> (n + 8) == 1 && r & (Bit(n + 8) - 1) == 0
  {
    Bit(n + 8)
  }

  /** GPU_LC1_LUTBIT: BIT(n + 16). */
  function Lc1LutBit(n: bv32): (r: bv32)
    requires n < 16
    ensures r >> (n + 16) == 1 && r & (Bit(n + 16) - 1) == 0
  {
    Bit(n + 16)
  }

  /** GPU_LC1_ATTNBIT: BIT(n + 24). */
  function Lc1AttnBit(n: bv32): (r: bv32)
    requires n < 8
    ensures r >> (n + 24) == 1 && r & (Bit(n + 24) - 1) == 0
  {
    Bit(n + 24)
  }

  /** For lights 0..7 each group stays in its own byte. */
  lemma Lc1Groups(n: bv32)
    requires n < 8
    ensures Lc1ShadowBit(n) & !0x000000FF == 0
    ensures Lc1SpotBit(n) & !0x0000FF00 == 0
    ensures Lc1LutBit(n) & !0x00FF0000 == 0
    ensures Lc1AttnBit(n) & !0xFF000000 == 0
  {
  }

  /** Within a group, distinct lights get distinct bits. */
  lemma Lc1LightsDistinct(n: bv32, m: bv32)
    requires n < 8 && m < 8
    ensures n != m <==> Lc1ShadowBit(n) & Lc1ShadowBit(m) == 0
    ensures n != m <==> Lc1SpotBit(n) & Lc1SpotBit(m) == 0
    ensures n != m <==> Lc1LutBit(n) & Lc1LutBit(m) == 0
    ensures n != m <==> Lc1AttnBit(n) & Lc1AttnBit(m) == 0
  {
  }

  // ---------------------------------------------------------------------------
  // Light permutation, LUT input and LUT index

  /** GPU_LIGHTPERM as written: `n` shifted by `i` bits (not by `i` fields). */
  function LightPerm(i: bv32, n: bv32): (r: bv32)
    requires i < 32
    ensures (r >> i) << i == r
    ensures n < 16 && i <= 28 ==> r >> i == n
  {
    n << i
  }

  /** As written, different slot assignments give the same word: light 2 in
      slot 0 and light 1 in slot 1. */
  lemma LightPermSlotsOverlap()
    ensures LightPerm(0, 2) == LightPerm(1, 1)
  {
  }

  /** GPU_LIGHTLUTINPUT: input `n` of lookup table `i` in field `i`. */
  function LightLutInputParam(i: bv32, n: bv32): (r: bv32)
    requires i < 8
    ensures n < 16 ==> r & !NibbleMask(i) == 0 && r >> (i * 4) == n
  {
    n << (i * 4)
  }

  /** Inputs of distinct tables are disjoint, and each table's input reads
      back from the OR of two. */
  lemma LightLutInputParamDisjoint(i: LightLutId, a: LightLutInput, j: LightLutId, b: LightLutInput)
    requires i != j
    ensures LightLutInputParam(i.Code(), a.Code()) & LightLutInputParam(j.Code(), b.Code()) == 0
    ensures Nibble(LightLutInputParam(i.Code(), a.Code()) | LightLutInputParam(j.Code(), b.Code()), i.Code()) == a.Code()
  {
    LightLutIdCodeInjective(i, j);
    NibbleShift(LightLutInputParam(i.Code(), a.Code()) | LightLutInputParam(j.Code(), b.Code()), i.Code());
  }

  /** The light permutation as evidently intended: light index `n` in field `i`,
      the 4-bit layout GPU_LIGHTLUTINPUT uses. */
  function LightPermIntended(i: bv32, n: bv32): (r: bv32)
    requires i < 8
    ensures n < 16 ==> r & !NibbleMask(i) == 0 && r >> (i * 4) == n
  {
    LightLutInputParam(i, n)
  }

  /** With 4-bit fields, slots are disjoint and each slot reads back. */
  lemma LightPermIntendedSlots(i: bv32, n: bv32, j: bv32, m: bv32)
    requires i < 8 && j < 8 && n < 16 && m < 16 && i != j
    ensures LightPermIntended(i, n) & LightPermIntended(j, m) == 0
    ensures Nibble(LightPermIntended(i, n) | LightPermIntended(j, m), i) == n
  {
    NibbleShift(LightPermIntended(i, n) | LightPermIntended(j, m), i);
  }

  /** GPU_LIGHTLUTIDX: the entry offset in bits 0-7, the table in bits 8-10
      and the selection from bit 11 up. */
  function LightLutIdx(c: bv32, i: bv32, o: bv32): (r: bv32)
    ensures o < 256 && i < 8 && c < 0x200000 ==>
      r & 0xFF == o && (r >> 8) & 7 == i && r >> 11 == c
  {
    (o) | (i << 8) | (c << 11)
  }

  /** An index word determines its selection, table and offset. */
  lemma LightLutIdxInjective(c: LightLutSelect, i: LightLutId, o: bv32,
                             c': LightLutSelect, i': LightLutId, o': bv32)
    requires o < 256 && o' < 256
    ensures LightLutIdx(c.Code(), i.Code(), o) == LightLutIdx(c'.Code(), i'.Code(), o')
            <==> c == c' && i == i' && o == o'
  {
    LightLutSelectCodeInjective(c, c');
    LightLutIdCodeInjective(i, i');
  }

  // ---------------------------------------------------------------------------
  // Light colour

  /** GPU_LIGHTCOLOR as written: the green and red terms are masked with 0xFF
      after being shifted left by 10 and 20, so they are always 0 and only
      the blue byte survives. */
  function LightColor(r: bv32, g: bv32, b: bv32): (c: bv32)
    ensures c == b & 0xFF
    ensures c < 256
  {
    (b & 0xFF) | ((g << 10) & 0xFF) | ((r << 20) & 0xFF)
  }

  /** As written, full red and green with no blue encode as black. */
  lemma LightColorDropsRedGreen()
    ensures LightColor(0xFF, 0xFF, 0) == 0
    ensures LightColor(0xFF, 0, 0) == LightColor(0, 0xFF, 0)
  {
  }

  /** The light colour as evidently intended: each component masked to 8 bits
      before shifting, in bits 0-7, 10-17 and 20-27. */
  function LightColorIntended(r: bv32, g: bv32, b: bv32): (c: bv32)
    ensures c & 0xFF == b & 0xFF
    ensures (c >> 10) & 0xFF == g & 0xFF
    ensures (c >> 20) & 0xFF == r & 0xFF
    ensures c & !0x0FF3FCFF == 0
  {
    (b & 0xFF) | ((g & 0xFF) << 10) | ((r & 0xFF) << 20)
  }

  /** On 8-bit components the intended encoding loses nothing. */
  lemma LightColorIntendedInjective(r: bv32, g: bv32, b: bv32, r': bv32, g': bv32, b': bv32)
    requires r < 256 && g < 256 && b < 256 && r' < 256 && g' < 256 && b' < 256
    ensures LightColorIntended(r, g, b) == LightColorIntended(r', g', b') <==> r == r' && g == g' && b == b'
  {
  }
}
