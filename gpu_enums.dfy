/** The GPU enumerations whose numeric codes feed the register-field encoders.
    Each enumeration is a datatype; `Code()` is the value the header assigns. */
module GpuEnums {

  /** Texture filters. */
  datatype TextureFilter = Nearest | Linear
  {
    function Code(): (c: bv32)
      ensures c < 2
    {
      match this
      case Nearest => 0x0
      case Linear => 0x1
    }
  }

  /** Texture wrap modes. */
  datatype TextureWrap = ClampToEdge | ClampToBorder | Repeat | MirroredRepeat
  {
    function Code(): (c: bv32)
      ensures c < 4
    {
      match this
      case ClampToEdge => 0x0
      case ClampToBorder => 0x1
      case Repeat => 0x2
      case MirroredRepeat => 0x3
    }
  }

  /** Pixel write mask: five channel bits and two composites of them. */
  datatype WriteMask = WriteRed | WriteGreen | WriteBlue | WriteAlpha | WriteDepth | WriteColor | WriteAll
  {
    function Code(): (c: bv32)
      ensures c < 0x20
    {
      match this
      case WriteRed => 0x01
      case WriteGreen => 0x02
      case WriteBlue => 0x04
      case WriteAlpha => 0x08
      case WriteDepth => 0x10
      case WriteColor => 0x0F
      case WriteAll => 0x1F
    }

    /** One of the five single-channel members. */
    predicate IsChannel()
    {
      !WriteColor? && !WriteAll?
    }
  }

  /** Vertex attribute component formats (used only as tags here). */
  datatype Format = Byte | UnsignedByte | Short | Float
  {
    function Code(): (c: bv32)
      ensures c < 4
    {
      match this
      case Byte => 0
      case UnsignedByte => 1
      case Short => 2
      case Float => 3
    }
  }

  /** Texture combiner sources. */
  datatype TevSrc =
    | PrimaryColor | FragmentPrimaryColor | FragmentSecondaryColor
    | Texture0 | Texture1 | Texture2 | Texture3
    | PreviousBuffer | Constant | Previous
  {
    function Code(): (c: bv32)
      ensures c < 16
    {
      match this
      case PrimaryColor => 0x00
      case FragmentPrimaryColor => 0x01
      case FragmentSecondaryColor => 0x02
      case Texture0 => 0x03
      case Texture1 => 0x04
      case Texture2 => 0x05
      case Texture3 => 0x06
      case PreviousBuffer => 0x0D
      case Constant => 0x0E
      case Previous => 0x0F
    }
  }

  /** Texture combiner RGB operands; the sixteen codes fill a 4-bit field. */
  datatype TevOpRgb =
    | RgbSrcColor | RgbOneMinusSrcColor | RgbSrcAlpha | RgbOneMinusSrcAlpha
    | RgbSrcR | RgbOneMinusSrcR | Rgb0x06 | Rgb0x07
    | RgbSrcG | RgbOneMinusSrcG | Rgb0x0A | Rgb0x0B
    | RgbSrcB | RgbOneMinusSrcB | Rgb0x0E | Rgb0x0F
  {
    function Code(): (c: bv32)
      ensures c < 16
    {
      match this
      case RgbSrcColor => 0x00
      case RgbOneMinusSrcColor => 0x01
      case RgbSrcAlpha => 0x02
      case RgbOneMinusSrcAlpha => 0x03
      case RgbSrcR => 0x04
      case RgbOneMinusSrcR => 0x05
      case Rgb0x06 => 0x06
      case Rgb0x07 => 0x07
      case RgbSrcG => 0x08
      case RgbOneMinusSrcG => 0x09
      case Rgb0x0A => 0x0A
      case Rgb0x0B => 0x0B
      case RgbSrcB => 0x0C
      case RgbOneMinusSrcB => 0x0D
      case Rgb0x0E => 0x0E
      case Rgb0x0F => 0x0F
    }
  }

  /** Texture combiner alpha operands. */
  datatype TevOpA =
    | ASrcAlpha | AOneMinusSrcAlpha | ASrcR | AOneMinusSrcR
    | ASrcG | AOneMinusSrcG | ASrcB | AOneMinusSrcB
  {
    function Code(): (c: bv32)
      ensures c < 8
    {
      match this
      case ASrcAlpha => 0x00
      case AOneMinusSrcAlpha => 0x01
      case ASrcR => 0x02
      case AOneMinusSrcR => 0x03
      case ASrcG => 0x04
      case AOneMinusSrcG => 0x05
      case ASrcB => 0x06
      case AOneMinusSrcB => 0x07
    }
  }

  /** Lighting lookup-table identifiers. */
  datatype LightLutId = LutD0 | LutD1 | LutSP | LutFR | LutRB | LutRG | LutRR | LutDA
  {
    function Code(): (c: bv32)
      ensures c < 8
    {
      match this
      case LutD0 => 0
      case LutD1 => 1
      case LutSP => 2
      case LutFR => 3
      case LutRB => 4
      case LutRG => 5
      case LutRR => 6
      case LutDA => 7
    }
  }

  /** Lighting lookup-table inputs. */
  datatype LightLutInput = InputNH | InputVH | InputNV | InputLN | InputSP | InputCP
  {
    function Code(): (c: bv32)
      ensures c < 6
    {
      match this
      case InputNH => 0
      case InputVH => 1
      case InputNV => 2
      case InputLN => 3
      case InputSP => 4
      case InputCP => 5
    }
  }

  /** Lighting lookup-table selection. */
  datatype LightLutSelect = SelectCommon | SelectSP | SelectDA
  {
    function Code(): (c: bv32)
      ensures c < 3
    {
      match this
      case SelectCommon => 0
      case SelectSP => 1
      case SelectDA => 2
    }
  }

  /** The member of a 2-bit format field: every value names a format. */
  function FormatOf(c: bv32): (f: Format)
    requires c < 4
    ensures f.Code() == c
  {
    if c == 0 then Byte else if c == 1 then UnsignedByte else if c == 2 then Short else Float
  }

  /** The member of a 4-bit RGB operand field: every value names an operand. */
  function TevOpRgbOf(c: bv32): (op: TevOpRgb)
    requires c < 16
    ensures op.Code() == c
  {
    match c
    case 0x0 => RgbSrcColor
    case 0x1 => RgbOneMinusSrcColor
    case 0x2 => RgbSrcAlpha
    case 0x3 => RgbOneMinusSrcAlpha
    case 0x4 => RgbSrcR
    case 0x5 => RgbOneMinusSrcR
    case 0x6 => Rgb0x06
    case 0x7 => Rgb0x07
    case 0x8 => RgbSrcG
    case 0x9 => RgbOneMinusSrcG
    case 0xA => Rgb0x0A
    case 0xB => Rgb0x0B
    case 0xC => RgbSrcB
    case 0xD => RgbOneMinusSrcB
    case 0xE => Rgb0x0E
    case _ => Rgb0x0F
  }

  // Distinct members of one enumeration have distinct codes.

  lemma TextureFilterCodeInjective(a: TextureFilter, b: TextureFilter)
    ensures a.Code() == b.Code() <==> a == b
  {
  }

  lemma TextureWrapCodeInjective(a: TextureWrap, b: TextureWrap)
    ensures a.Code() == b.Code() <==> a == b
  {
  }

  lemma FormatCodeInjective(a: Format, b: Format)
    ensures a.Code() == b.Code() <==> a == b
  {
  }

  lemma TevSrcCodeInjective(a: TevSrc, b: TevSrc)
    ensures a.Code() == b.Code() <==> a == b
  {
  }

  lemma TevOpRgbCodeInjective(a: TevOpRgb, b: TevOpRgb)
    ensures a.Code() == b.Code() <==> a == b
  {
  }

  lemma TevOpACodeInjective(a: TevOpA, b: TevOpA)
    ensures a.Code() == b.Code() <==> a == b
  {
  }

  lemma LightLutIdCodeInjective(a: LightLutId, b: LightLutId)
    ensures a.Code() == b.Code() <==> a == b
  {
  }

  lemma LightLutInputCodeInjective(a: LightLutInput, b: LightLutInput)
    ensures a.Code() == b.Code() <==> a == b
  {
  }

  lemma LightLutSelectCodeInjective(a: LightLutSelect, b: LightLutSelect)
    ensures a.Code() == b.Code() <==> a == b
  {
  }

  /** The composite write masks are the ORs of their channels. */
  lemma WriteMaskComposites()
    ensures WriteColor.Code() == WriteRed.Code() | WriteGreen.Code() | WriteBlue.Code() | WriteAlpha.Code()
    ensures WriteAll.Code() == WriteColor.Code() | WriteDepth.Code()
  {
  }

  /** Each channel member is a single bit, and distinct channels share no bit. */
  lemma WriteMaskChannelBits(a: WriteMask, b: WriteMask)
    requires a.IsChannel() && b.IsChannel()
    ensures a.Code() != 0 && a.Code() & (a.Code() - 1) == 0
    ensures a != b <==> a.Code() & b.Code() == 0
  {
  }
}
