# GPU register-field encoders of libctru

libctru is a homebrew SDK for a handheld console. Its GPU enumerations header
defines the numeric codes of the GPU's configuration enumerations. It also
defines a set of macros that shift and mask those codes into the fields of
32-bit GPU register words. Examples are the texture filter and wrap
parameters, the texture-combiner (TEV) source and operand words, the vertex
attribute format, the lighting LC1 bit groups, the lookup-table (LUT) input
and index words, and the light colour.

This project models each macro as a Dafny function over `bv32`, written with
the same operators as the C expression. It models each enumeration those
macros consume as a datatype with a `Code()` function. It then proves:

- which bits each field occupies;
- that the fields of one register word do not overlap;
- that the packed inputs can be read back;
- that a word built from enumeration members determines those members.

Files:

- `bits.dfy` (module `Bits`): the assumed `BIT(n)` and 4-bit field
  extraction. `Nibble` is defined field by field and `NibbleShift` gives its
  closed form.
- `gpu_enums.dfy` (module `GpuEnums`): the enumerations, their codes, and
  facts about those codes.
- `gpu_macros.dfy` (module `GpuMacros`): the macros and the lemmas about them.

Modelling decisions:

- The C macros compute on `int` or `unsigned`. Here every argument and result
  is a 32-bit unsigned word, so arithmetic wraps modulo 2^32.
- Shift counts that C leaves undefined are ruled out by `requires` clauses.
  These are counts of 32 or more, and the negative left operand of
  `GPU_ATTRIBFMT` when `n == 0`.
- `BIT(n)` is defined in a header outside this model. It is assumed to be
  `1 << n` (`Bits.Bit`).
- Only the texture filter and wrap makers mask their input to the field
  width. The other macros do not mask their inputs, and neither does the
  model. The field and
  round-trip properties of the unmasked macros therefore hold only for
  in-range inputs. The lemmas `TevBufferWriteConfigUnmasked` and
  `AttribFmtSpills` show what happens otherwise.

- `TextureParams` and `AttribFmtWord` are not macros of the header. They OR
  together the results of the texture makers and of one `GPU_ATTRIBFMT` per
  attribute, as a register word is built. They are the words the round-trip
  lemmas read back.
- `GpuMacros.AttribFmt` is `GPU_ATTRIBFMT` (line 178) operator for operator.
  Its contract is carried by the lemmas `AttribFmtInField`,
  `AttribFmtOwnField`, `AttribFmtRecovers` and `AttribFmtOtherField`, which
  have rows below.

## Model

| member | source | states |
|---|---|---|
| `GpuEnums.TextureFilter.Code` | libctru/include/3ds/gpu/enums.h:20-24 | texture filter codes fit the 1-bit filter field |
| `GpuEnums.TextureWrap.Code` | libctru/include/3ds/gpu/enums.h:27-33 | wrap mode codes fit the 2-bit wrap field |
| `GpuEnums.WriteMask.Code` | libctru/include/3ds/gpu/enums.h:97-107 | every write-mask code lies within the five mask bits |
| `GpuEnums.Format.Code` | libctru/include/3ds/gpu/enums.h:161-167 | component format codes fit the 2-bit format field of an attribute |
| `GpuEnums.TevSrc.Code` | libctru/include/3ds/gpu/enums.h:181-193 | every combiner source code is below 16 |
| `GpuEnums.TevOpRgb.Code` | libctru/include/3ds/gpu/enums.h:196-214 | every RGB operand code is below 16 |
| `GpuEnums.TevOpA.Code` | libctru/include/3ds/gpu/enums.h:217-227 | every alpha operand code is below 8 |
| `GpuEnums.LightLutId.Code` | libctru/include/3ds/gpu/enums.h:293-303 | every LUT id code is below 8 |
| `GpuEnums.LightLutInput.Code` | libctru/include/3ds/gpu/enums.h:306-314 | every LUT input code is below 6, so it fits a 4-bit field |
| `GpuEnums.LightLutSelect.Code` | libctru/include/3ds/gpu/enums.h:328-333 | every LUT selection code is below 3 |
| `GpuEnums.FormatOf` | libctru/include/3ds/gpu/enums.h:161-167 | every 2-bit value is the code of some format |
| `GpuEnums.TevOpRgbOf` | libctru/include/3ds/gpu/enums.h:196-214 | every 4-bit value is the code of some RGB operand (the enumeration fills the field) |
| `GpuEnums.TextureFilterCodeInjective` | libctru/include/3ds/gpu/enums.h:20-24 | two filters have equal codes iff they are the same member |
| `GpuEnums.TextureWrapCodeInjective` | libctru/include/3ds/gpu/enums.h:27-33 | two wrap modes have equal codes iff they are the same member |
| `GpuEnums.FormatCodeInjective` | libctru/include/3ds/gpu/enums.h:161-167 | two formats have equal codes iff they are the same member |
| `GpuEnums.TevSrcCodeInjective` | libctru/include/3ds/gpu/enums.h:181-193 | two combiner sources have equal codes iff they are the same member |
| `GpuEnums.TevOpRgbCodeInjective` | libctru/include/3ds/gpu/enums.h:196-214 | two RGB operands have equal codes iff they are the same member |
| `GpuEnums.TevOpACodeInjective` | libctru/include/3ds/gpu/enums.h:217-227 | two alpha operands have equal codes iff they are the same member |
| `GpuEnums.LightLutIdCodeInjective` | libctru/include/3ds/gpu/enums.h:293-303 | two LUT ids have equal codes iff they are the same member |
| `GpuEnums.LightLutInputCodeInjective` | libctru/include/3ds/gpu/enums.h:306-314 | two LUT inputs have equal codes iff they are the same member |
| `GpuEnums.LightLutSelectCodeInjective` | libctru/include/3ds/gpu/enums.h:328-333 | two LUT selections have equal codes iff they are the same member |
| `GpuEnums.WriteMaskComposites` | libctru/include/3ds/gpu/enums.h:99-106 | WRITE_COLOR is RED, GREEN, BLUE and ALPHA ORed together; WRITE_ALL is COLOR ORed with DEPTH |
| `GpuEnums.WriteMaskChannelBits` | libctru/include/3ds/gpu/enums.h:99-103 | each of the five channel masks is a single bit; two channels share a bit iff they are the same channel |
| `Bits.Bit` | libctru/include/3ds/gpu/enums.h:259-265 | the assumed `BIT(n)` is a single set bit, at position n |
| `GpuMacros.TextureMagFilter` | libctru/include/3ds/gpu/enums.h:8 | result is 0 or 2, and bit 1 holds the low bit of the input |
| `GpuMacros.TextureMinFilter` | libctru/include/3ds/gpu/enums.h:10 | result is 0 or 4, and bit 2 holds the low bit of the input |
| `GpuMacros.TextureWrapS` | libctru/include/3ds/gpu/enums.h:12 | only bits 12-13 can be set, and they hold the low two bits of the input |
| `GpuMacros.TextureWrapT` | libctru/include/3ds/gpu/enums.h:14 | only bits 8-9 can be set, and they hold the low two bits of the input |
| `GpuMacros.TextureMakersMaskInput` | libctru/include/3ds/gpu/enums.h:8-14 | each maker depends only on the input's bits within the field width |
| `GpuMacros.TextureFieldsDisjoint` | libctru/include/3ds/gpu/enums.h:8-14 | the four texture fields are pairwise disjoint for all inputs |
| `GpuMacros.TextureParamsRoundTrip` | libctru/include/3ds/gpu/enums.h:8-14 | in the OR of the four fields, each field reads back as its masked input, and no other bit is set |
| `GpuMacros.TextureParamsInjective` | libctru/include/3ds/gpu/enums.h:8-14 | a texture word built from filter and wrap members determines those four members |
| `GpuMacros.TevBufferWriteConfig` | libctru/include/3ds/gpu/enums.h:17 | bit 0 of the configuration is bit 0 of stage 0, for all inputs |
| `GpuMacros.TevBufferWriteConfigBits` | libctru/include/3ds/gpu/enums.h:17 | with each stage 0 or 1, the result is below 16 and bit k equals stage k |
| `GpuMacros.TevBufferWriteConfigUnmasked` | libctru/include/3ds/gpu/enums.h:17 | inputs are not masked: stage 0 set to 2 gives the same word as stage 1 set to 1 |
| `GpuMacros.AttribFmtInField` | libctru/include/3ds/gpu/enums.h:178 | with 1 <= n <= 4, no bit outside field i is set |
| `GpuMacros.AttribFmtOwnField` | libctru/include/3ds/gpu/enums.h:178 | with 1 <= n <= 4, field i equals n - 1 shifted left by 2, ORed with f & 3 |
| `GpuMacros.AttribFmtRecovers` | libctru/include/3ds/gpu/enums.h:178 | with 1 <= n <= 4, field i read back gives n and the low two bits of f |
| `GpuMacros.AttribFmtOtherField` | libctru/include/3ds/gpu/enums.h:178 | with 1 <= n <= 4, every field other than i is 0 |
| `GpuMacros.AttribFmtSpills` | libctru/include/3ds/gpu/enums.h:178 | n is not masked: five components at index 0 give the same word as one unsigned-byte component at index 1 |
| `GpuMacros.AttribFmtDisjoint` | libctru/include/3ds/gpu/enums.h:178 | parameters for distinct attribute indices share no bit |
| `GpuMacros.DecodeAttribFmtWord` | libctru/include/3ds/gpu/enums.h:178 | reading back count attributes gives count attributes, each with 1 to 4 components |
| `GpuMacros.OrAttribFmtOtherField` | libctru/include/3ds/gpu/enums.h:178 | ORing a parameter for index i into any word leaves every field other than i unchanged |
| `GpuMacros.OrAttribFmtOwnField` | libctru/include/3ds/gpu/enums.h:178 | ORing a parameter for index i into a word whose field i is 0 makes field i hold the count-and-format field |
| `GpuMacros.AttribFmtWordOther` | libctru/include/3ds/gpu/enums.h:178 | appending an attribute leaves every field except the new attribute's unchanged |
| `GpuMacros.AttribFmtWordBeyond` | libctru/include/3ds/gpu/enums.h:178 | in the OR of one parameter per attribute, the fields past the last attribute are 0 |
| `GpuMacros.AttribFmtWordLast` | libctru/include/3ds/gpu/enums.h:178 | the field of the last attribute holds that attribute's count and format |
| `GpuMacros.AttribFmtWordField` | libctru/include/3ds/gpu/enums.h:178 | in the OR of one parameter per attribute, field k holds exactly attribute k's count and format |
| `GpuMacros.AttribFieldRecovers` | libctru/include/3ds/gpu/enums.h:178 | from one attribute's 4-bit field, the count and the format can be recovered |
| `GpuMacros.DecodeAt` | libctru/include/3ds/gpu/enums.h:178 | decoded attribute k is read from field k |
| `GpuMacros.AttribFmtWordRoundTrip` | libctru/include/3ds/gpu/enums.h:178 | decoding the OR of the parameters of up to eight attributes returns those attributes |
| `GpuMacros.TevSources` | libctru/include/3ds/gpu/enums.h:252 | with all three sources below 16, the result is below 0x1000 and fields 0, 1 and 2 hold a, b and c |
| `GpuMacros.TevOperands` | libctru/include/3ds/gpu/enums.h:254 | with all three operands below 16, the result is below 0x1000 and fields 0, 1 and 2 hold a, b and c |
| `GpuMacros.TevSourcesInjective` | libctru/include/3ds/gpu/enums.h:252 | two source words from source members are equal iff the three members are equal (every source triple round-trips) |
| `GpuMacros.TevOperandsRgbInjective` | libctru/include/3ds/gpu/enums.h:254 | two operand words from RGB operand members are equal iff the three members are equal |
| `GpuMacros.TevOperandsRgbOnto` | libctru/include/3ds/gpu/enums.h:254 | every word below 0x1000 is the operand word of some RGB operand triple |
| `GpuMacros.TevOperandsAlphaInjective` | libctru/include/3ds/gpu/enums.h:254 | two operand words from alpha operand members are equal iff the three members are equal |
| `GpuMacros.LightEnvLayerConfig` | libctru/include/3ds/gpu/enums.h:257 | result is never 7; it is n, except that 7 becomes 8 |
| `GpuMacros.LightEnvLayerConfigInjective` | libctru/include/3ds/gpu/enums.h:257 | on 0..7 the results are equal iff the inputs are, and never exceed 8 |
| `GpuMacros.LightEnvLayerConfigCollides` | libctru/include/3ds/gpu/enums.h:257 | outside 0..7 injectivity fails: 7 and 8 give the same parameter |
| `GpuMacros.Lc1ShadowBit` | libctru/include/3ds/gpu/enums.h:259 | a single bit, at position n |
| `GpuMacros.Lc1SpotBit` | libctru/include/3ds/gpu/enums.h:261 | a single bit, at position n + 8 |
| `GpuMacros.Lc1LutBit` | libctru/include/3ds/gpu/enums.h:263 | a single bit, at position n + 16 |
| `GpuMacros.Lc1AttnBit` | libctru/include/3ds/gpu/enums.h:265 | a single bit, at position n + 24 |
| `GpuMacros.Lc1Groups` | libctru/include/3ds/gpu/enums.h:259-265 | for lights 0..7 the shadow, spot, LUT and attenuation bits lie in bytes 0, 1, 2 and 3 |
| `GpuMacros.Lc1LightsDistinct` | libctru/include/3ds/gpu/enums.h:259-265 | within each group, two lights' bits overlap iff they are the same light |
| `GpuMacros.LightPerm` | libctru/include/3ds/gpu/enums.h:267 | as written: the low i bits are clear, and for n below 16 and i <= 28 shifting back by i recovers n |
| `GpuMacros.LightPermSlotsOverlap` | libctru/include/3ds/gpu/enums.h:267 | as written, light 2 in slot 0 and light 1 in slot 1 give the same word |
| `GpuMacros.LightPermIntended` | libctru/include/3ds/gpu/enums.h:267 | corrected: for n below 16 no bit outside field i is set, and shifting back by 4i bits gives n |
| `GpuMacros.LightPermIntendedSlots` | libctru/include/3ds/gpu/enums.h:267 | corrected: distinct slots are disjoint, and each slot reads back from their OR |
| `GpuMacros.LightLutInputParam` | libctru/include/3ds/gpu/enums.h:269 | for n below 16 no bit outside field i is set, and shifting back by 4i bits gives n |
| `GpuMacros.LightLutInputParamDisjoint` | libctru/include/3ds/gpu/enums.h:269 | the inputs of two distinct LUT ids share no bit, and each reads back from their OR |
| `GpuMacros.LightLutIdx` | libctru/include/3ds/gpu/enums.h:271 | for o < 256, i < 8 and c < 2^21: o is in bits 0-7, i in bits 8-10 and c from bit 11 up |
| `GpuMacros.LightLutIdxInjective` | libctru/include/3ds/gpu/enums.h:271 | an index word from a selection member, a LUT id member and an 8-bit offset determines all three |
| `GpuMacros.LightColor` | libctru/include/3ds/gpu/enums.h:273 | as written: the result is b & 0xFF for every r and g, so it is below 256 |
| `GpuMacros.LightColorDropsRedGreen` | libctru/include/3ds/gpu/enums.h:273 | as written: full red and green with no blue encode as 0, and pure red equals pure green |
| `GpuMacros.LightColorIntended` | libctru/include/3ds/gpu/enums.h:273 | corrected: the low bytes of b, g and r are in bits 0-7, 10-17 and 20-27, and no other bit is set |
| `GpuMacros.LightColorIntendedInjective` | libctru/include/3ds/gpu/enums.h:273 | corrected: for 8-bit components, two colours are equal iff their components are |

## Left out

- `libctru/include/3ds/services/hid.h` as a whole. It declares a
  shared-memory handle, input-reading functions and `HIDUSER_*` service calls
  that have no body in this code. They are foreign I/O and inter-process calls.
  `hidWaitForEvent` is a blocking wait on kernel events, and the gyroscope
  coefficient is a float. The `PAD_KEY` table is constant data with no
  operation over it.
- What the blend, stencil, logic-op, test-function, cull and combiner-function
  codes do to pixels. That behaviour is in the GPU hardware. The same goes for
  the texture unit, pixel format, scissor, scale, Fresnel, bump, LUT scaler,
  primitive and shader-type enumerations. No macro in the header consumes
  them, so they are not modelled.
- The component formats (`Format`) are tags only. Their data layouts, such as
  the 32-bit float for `GPU_FLOAT`, are not modelled.
- The definition of `BIT`, which is in a header outside this model. It is
  assumed to be `1 << n`, as `Bits.Bit` states.
- C's signed-integer rules. The macros compute on `int`, where a shift into
  or past the sign bit is undefined. This happens, for example, in
  `GPU_ATTRIBFMT` with `i == 7`, `GPU_LIGHTLUTIDX` with a large selection,
  `GPU_LIGHTCOLOR` with r >= 2^11 or g >= 2^21, `GPU_LIGHTLUTINPUT` with
  `i == 7` and n >= 8, `GPU_LIGHTPERM`, `GPU_TEVSOURCES` and
  `GPU_TEVOPERANDS` with c >= 2^23, and `GPU_TEV_BUFFER_WRITE_CONFIG` with
  large stage values. The model computes modulo 2^32 instead.
- GpuMacros.AttribFmt: undefined shifts are excluded by `requires`. These are
  `n == 0` (a negative left operand) and `i >= 8` (a shift of 32 or more).
  Attribute indices 8-11, which would need a 64-bit word, are not modelled.
- GpuMacros.LightPerm, GpuMacros.LightLutInputParam and the LC1 bits: shift
  counts of 32 or more are excluded by `requires`. Such shifts are undefined
  in C.

## Findings

| source | as written | input that shows it | evidently intended | confidence | as-written member | corrected member |
|---|---|---|---|---|---|---|
| libctru/include/3ds/gpu/enums.h:273 | `GPU_LIGHTCOLOR` masks the green and red terms with 0xFF after shifting them left by 10 and 20, so both are always 0 | r = 0xFF, g = 0xFF, b = 0 gives 0 | mask each component before shifting, placing b, g, r in bits 0-7, 10-17, 20-27 | high; not executed | GpuMacros.LightColorDropsRedGreen | GpuMacros.LightColorIntended |
| libctru/include/3ds/gpu/enums.h:267 | `GPU_LIGHTPERM` shifts light index n by i bits, so neighbouring slots overlap | i = 0, n = 2 and i = 1, n = 1 give the same word | one 4-bit field per slot, shift by `i*4`, as `GPU_LIGHTLUTINPUT` at line 269 does | medium; not executed | GpuMacros.LightPermSlotsOverlap | GpuMacros.LightPermIntended |
