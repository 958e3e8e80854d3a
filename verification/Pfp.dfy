/**
 PFP-xCF14 (src/pfp.rs): the four-byte physical feature header. `Encode` states the
 documented bit layout positionally; `FillBuffer` builds the same bytes with the
 shifts and masks of the source; `Decode` reads them back with shifts and masks.
 */
module Pfp {
  import opened Bytes

  const PFP_SIZE: nat := 4
  const FAMILY_MAGIC: U16 := 0xCF14

  datatype Modality = Cognitive | Render | Executive | SensorFeed {
    function ToBits(): Byte {
      match this case Cognitive => 0 case Render => 1 case Executive => 2 case SensorFeed => 3
    }

    static function FromBits(bits: Byte): Modality {
      var b := bits & 0x03;
      if b == 0 then Cognitive else if b == 1 then Render else if b == 2 then Executive else SensorFeed
    }
  }

  datatype RiskLevel = Low | Medium | Critical | Catastrophic {
    function ToBits(): Byte {
      match this case Low => 0 case Medium => 1 case Critical => 2 case Catastrophic => 3
    }

    static function FromBits(bits: Byte): RiskLevel {
      var b := bits & 0x03;
      if b == 0 then Low else if b == 1 then Medium else if b == 2 then Critical else Catastrophic
    }
  }

  datatype BodyStance = Seated | Standing | Moving | UnknownStance {
    function ToBits(): Byte {
      match this case Seated => 0 case Standing => 1 case Moving => 2 case UnknownStance => 3
    }

    static function FromBits(bits: Byte): BodyStance {
      var b := bits & 0x03;
      if b == 0 then Seated else if b == 1 then Standing else if b == 2 then Moving else UnknownStance
    }
  }

  datatype ProximityEdge = Safe | Warning | Danger | CriticalEdge {
    function ToBits(): Byte {
      match this case Safe => 0 case Warning => 1 case Danger => 2 case CriticalEdge => 3
    }

    static function FromBits(bits: Byte): ProximityEdge {
      var b := bits & 0x03;
      if b == 0 then Safe else if b == 1 then Warning else if b == 2 then Danger else CriticalEdge
    }
  }

  datatype OutputDest = Internal | External

  datatype OverrideFlag = Normal | HardOverride

  datatype PfpHeader = PfpHeader(
    modality: Modality,
    riskLevel: RiskLevel,
    bodyStance: BodyStance,
    proximityEdge: ProximityEdge,
    outputDest: OutputDest,
    overrideFlag: OverrideFlag,
    replayEnable: bool,
    reserved: Byte)
  {
    /** Rule 1: the test on the decoded header. It looks at the raw risk level. */
    predicate IsCatastrophicOverride() {
      riskLevel == Catastrophic && overrideFlag == HardOverride
    }

    /** Rule 6: without replay protection the effective level is MEDIUM. */
    function EffectiveRiskLevel(): RiskLevel {
      if !replayEnable then Medium else riskLevel
    }
  }

  /** Byte 2 by position: two bits each, lowest first. */
  function FeatureByte(p: PfpHeader): Byte {
    p.modality.ToBits() + 4 * p.riskLevel.ToBits() + 16 * p.bodyStance.ToBits() + 64 * p.proximityEdge.ToBits()
  }

  /** Byte 3 by position: one bit each, the five high bits zero. */
  function ControlByte(p: PfpHeader): Byte {
    (if p.outputDest == External then 1 else 0)
    + (if p.overrideFlag == HardOverride then 2 else 0)
    + (if p.replayEnable then 4 else 0)
  }

  function Encode(p: PfpHeader): (buf: seq<Byte>)
    ensures |buf| == PFP_SIZE
  {
    [0xCF, 0x14, FeatureByte(p), ControlByte(p)]
  }

  function Decode(buf: seq<Byte>): PfpHeader
    requires |buf| == PFP_SIZE
  {
    var byte2, byte3 := buf[2], buf[3];
    PfpHeader(
      Modality.FromBits(byte2 & 0x03),
      RiskLevel.FromBits((byte2 >> 2) & 0x03),
      BodyStance.FromBits((byte2 >> 4) & 0x03),
      ProximityEdge.FromBits((byte2 >> 6) & 0x03),
      if byte3 & 0x01 != 0 then External else Internal,
      if byte3 & 0x02 != 0 then HardOverride else Normal,
      byte3 & 0x04 != 0,
      (byte3 >> 3) & 0x1F)
  }

  predicate VerifyMagic(buf: seq<Byte>)
    requires |buf| >= 2
  {
    FromBe(buf[0..2]) == FAMILY_MAGIC
  }

  /** The raw-byte test of the catastrophic manager (src/catastrophic.rs). */
  predicate IsCatastrophicBytes(pfpBytes: seq<Byte>)
    requires |pfpBytes| == PFP_SIZE
  {
    var riskLevel := (pfpBytes[2] >> 2) & 0x03;
    var overrideFlag := (pfpBytes[3] >> 1) & 0x01;
    riskLevel == 3 && overrideFlag == 1
  }

  /** The source's encoder: a zeroed buffer, masks and shifts ORed together. */
  method FillBuffer(p: PfpHeader) returns (buf: array<Byte>)
    ensures fresh(buf) && buf[..] == Encode(p)
  {
    var byte2 := OrFeatures(p);
    var byte3 := OrControls(p);
    buf := new Byte[PFP_SIZE](_ => 0);
    buf[0] := 0xCF;
    buf[1] := 0x14;
    buf[2] := byte2;
    buf[3] := byte3;
  }

  method OrFeatures(p: PfpHeader) returns (byte2: Byte)
    ensures byte2 == FeatureByte(p)
  {
    var m, r, s, e := p.modality.ToBits(), p.riskLevel.ToBits(), p.bodyStance.ToBits(), p.proximityEdge.ToBits();
    byte2 := (m & 0x03) | ((r & 0x03) << 2) | ((s & 0x03) << 4) | ((e & 0x03) << 6);
    OrIsSum(m, r, s, e);
  }

  method OrControls(p: PfpHeader) returns (byte3: Byte)
    ensures byte3 == ControlByte(p)
  {
    byte3 := 0;
    if p.outputDest == External { byte3 := byte3 | 0x01; }
    if p.overrideFlag == HardOverride { byte3 := byte3 | 0x02; }
    if p.replayEnable { byte3 := byte3 | 0x04; }
  }

  lemma OrIsSum(m: Byte, r: Byte, s: Byte, e: Byte)
    requires m < 4 && r < 4 && s < 4 && e < 4
    ensures (m & 0x03) | ((r & 0x03) << 2) | ((s & 0x03) << 4) | ((e & 0x03) << 6) == m + 4 * r + 16 * s + 64 * e
  {
  }

  lemma FieldsOfSum(m: Byte, r: Byte, s: Byte, e: Byte)
    requires m < 4 && r < 4 && s < 4 && e < 4
    ensures var b := m + 4 * r + 16 * s + 64 * e;
            b & 0x03 == m && (b >> 2) & 0x03 == r && (b >> 4) & 0x03 == s && (b >> 6) & 0x03 == e
  {
  }

  lemma SumOfFields(b: Byte)
    ensures (b & 0x03) + 4 * ((b >> 2) & 0x03) + 16 * ((b >> 4) & 0x03) + 64 * ((b >> 6) & 0x03) == b
  {
  }

  /** Each two-bit code names one case of its enumeration, and back. */
  lemma TwoBitCodes(b: Byte)
    requires b < 4
    ensures Modality.FromBits(b).ToBits() == b && RiskLevel.FromBits(b).ToBits() == b
    ensures BodyStance.FromBits(b).ToBits() == b && ProximityEdge.FromBits(b).ToBits() == b
  {
    TwoBits(b);
  }

  lemma TwoBits(b: Byte)
    ensures b & 0x03 < 4
    ensures b < 4 ==> b & 0x03 == b && (b == 0 || b == 1 || b == 2 || b == 3)
  {
  }

  /** The feature byte read field by field. */
  lemma FeatureFields(p: PfpHeader)
    ensures var b := FeatureByte(p);
            && b & 0x03 == p.modality.ToBits()
            && (b >> 2) & 0x03 == p.riskLevel.ToBits()
            && (b >> 4) & 0x03 == p.bodyStance.ToBits()
            && (b >> 6) & 0x03 == p.proximityEdge.ToBits()
  {
    FieldsOfSum(p.modality.ToBits(), p.riskLevel.ToBits(), p.bodyStance.ToBits(), p.proximityEdge.ToBits());
  }

  lemma ControlFields(p: PfpHeader)
    ensures var b := ControlByte(p);
            && (b & 0x01 != 0 <==> p.outputDest == External)
            && (b & 0x02 != 0 <==> p.overrideFlag == HardOverride)
            && (b & 0x04 != 0 <==> p.replayEnable)
            && (b >> 3) & 0x1F == 0
            && ((b >> 1) & 0x01 == 1 <==> p.overrideFlag == HardOverride)
  {
  }

  /** The magic bytes, read as one big-endian number. */
  lemma MagicBytes(buf: seq<Byte>)
    requires |buf| >= 2
    ensures VerifyMagic(buf) <==> buf[0] == 0xCF && buf[1] == 0x14
  {
    assert buf[0..2] == [buf[0], buf[1]];
    BePair(buf[0], buf[1]);
    BePair(0xCF, 0x14);
  }

  /** Decoding an encoded header loses exactly the reserved bits. */
  lemma DecodeEncode(p: PfpHeader)
    ensures VerifyMagic(Encode(p))
    ensures Decode(Encode(p)) == p.(reserved := 0)
  {
    MagicBytes(Encode(p));
    FeatureFields(p);
    ControlFields(p);
    DecodeFields(Encode(p), p);
  }

  lemma DecodeFields(buf: seq<Byte>, p: PfpHeader)
    requires |buf| == PFP_SIZE
    requires buf[2] & 0x03 == p.modality.ToBits() && (buf[2] >> 2) & 0x03 == p.riskLevel.ToBits()
    requires (buf[2] >> 4) & 0x03 == p.bodyStance.ToBits() && (buf[2] >> 6) & 0x03 == p.proximityEdge.ToBits()
    requires buf[3] & 0x01 != 0 <==> p.outputDest == External
    requires buf[3] & 0x02 != 0 <==> p.overrideFlag == HardOverride
    requires buf[3] & 0x04 != 0 <==> p.replayEnable
    requires (buf[3] >> 3) & 0x1F == 0
    ensures Decode(buf) == p.(reserved := 0)
  {
    CodesAreFields(p);
  }

  lemma CodesAreFields(p: PfpHeader)
    ensures Modality.FromBits(p.modality.ToBits()) == p.modality
    ensures RiskLevel.FromBits(p.riskLevel.ToBits()) == p.riskLevel
    ensures BodyStance.FromBits(p.bodyStance.ToBits()) == p.bodyStance
    ensures ProximityEdge.FromBits(p.proximityEdge.ToBits()) == p.proximityEdge
  {
  }

  /** Re-encoding a received header clears the reserved bits of byte 3 and changes nothing else. */
  lemma EncodeDecode(buf: seq<Byte>)
    requires |buf| == PFP_SIZE && VerifyMagic(buf)
    ensures Encode(Decode(buf)) == buf[3 := buf[3] & 0x07]
    ensures Decode(buf).reserved == buf[3] >> 3
  {
    MagicBytes(buf);
    FeatureReencoded(buf);
    ControlReencoded(buf);
  }

  lemma FeatureReencoded(buf: seq<Byte>)
    requires |buf| == PFP_SIZE
    ensures FeatureByte(Decode(buf)) == buf[2]
  {
    var b := buf[2];
    SumOfFields(b);
    TwoBits(b);
    TwoBits(b >> 2);
    TwoBits(b >> 4);
    TwoBits(b >> 6);
    TwoBitCodes(b & 0x03);
    TwoBitCodes((b >> 2) & 0x03);
    TwoBitCodes((b >> 4) & 0x03);
    TwoBitCodes((b >> 6) & 0x03);
  }

  lemma ControlReencoded(buf: seq<Byte>)
    requires |buf| == PFP_SIZE
    ensures ControlByte(Decode(buf)) == buf[3] & 0x07
    ensures Decode(buf).reserved == buf[3] >> 3
  {
    ControlBits(buf[3]);
  }

  lemma ControlBits(b: Byte)
    ensures (if b & 0x01 != 0 then 1 as Byte else 0) + (if b & 0x02 != 0 then 2 as Byte else 0)
            + (if b & 0x04 != 0 then 4 as Byte else 0) == b & 0x07
    ensures (b >> 3) & 0x1F == b >> 3
  {
  }

  /** The documented meaning of bytes 2 and 3, bit by bit: two bits for each feature, one for each control. */
  predicate FieldsAt(p: PfpHeader, byte2: Byte, byte3: Byte) {
    && (p.modality == Cognitive <==> byte2 & 0x03 == 0x00) && (p.modality == Render <==> byte2 & 0x03 == 0x01)
    && (p.modality == Executive <==> byte2 & 0x03 == 0x02) && (p.modality == SensorFeed <==> byte2 & 0x03 == 0x03)
    && (p.riskLevel == Low <==> byte2 & 0x0C == 0x00) && (p.riskLevel == Medium <==> byte2 & 0x0C == 0x04)
    && (p.riskLevel == Critical <==> byte2 & 0x0C == 0x08) && (p.riskLevel == Catastrophic <==> byte2 & 0x0C == 0x0C)
    && (p.bodyStance == Seated <==> byte2 & 0x30 == 0x00) && (p.bodyStance == Standing <==> byte2 & 0x30 == 0x10)
    && (p.bodyStance == Moving <==> byte2 & 0x30 == 0x20) && (p.bodyStance == UnknownStance <==> byte2 & 0x30 == 0x30)
    && (p.proximityEdge == Safe <==> byte2 & 0xC0 == 0x00) && (p.proximityEdge == Warning <==> byte2 & 0xC0 == 0x40)
    && (p.proximityEdge == Danger <==> byte2 & 0xC0 == 0x80)
    && (p.proximityEdge == CriticalEdge <==> byte2 & 0xC0 == 0xC0)
    && (p.outputDest == External <==> byte3 & 0x01 != 0)
    && (p.overrideFlag == HardOverride <==> byte3 & 0x02 != 0)
    && (p.replayEnable <==> byte3 & 0x04 != 0)
    && p.reserved == byte3 >> 3
  }

  lemma Masks(b: Byte)
    ensures b & 0x03 == 0 || b & 0x03 == 1 || b & 0x03 == 2 || b & 0x03 == 3
    ensures (b >> 2) & 0x03 == 0 <==> b & 0x0C == 0x00
    ensures (b >> 2) & 0x03 == 1 <==> b & 0x0C == 0x04
    ensures (b >> 2) & 0x03 == 2 <==> b & 0x0C == 0x08
    ensures (b >> 2) & 0x03 == 3 <==> b & 0x0C == 0x0C
    ensures (b >> 4) & 0x03 == 0 <==> b & 0x30 == 0x00
    ensures (b >> 4) & 0x03 == 1 <==> b & 0x30 == 0x10
    ensures (b >> 4) & 0x03 == 2 <==> b & 0x30 == 0x20
    ensures (b >> 4) & 0x03 == 3 <==> b & 0x30 == 0x30
    ensures (b >> 6) & 0x03 == 0 <==> b & 0xC0 == 0x00
    ensures (b >> 6) & 0x03 == 1 <==> b & 0xC0 == 0x40
    ensures (b >> 6) & 0x03 == 2 <==> b & 0xC0 == 0x80
    ensures (b >> 6) & 0x03 == 3 <==> b & 0xC0 == 0xC0
  {
  }

  /** Every field by its code: a feature named by the value of its two bits. */
  lemma Codes(b: Byte)
    ensures var m := Modality.FromBits(b & 0x03);
            && (m == Cognitive <==> b & 0x03 == 0) && (m == Render <==> b & 0x03 == 1)
            && (m == Executive <==> b & 0x03 == 2) && (m == SensorFeed <==> b & 0x03 == 3)
    ensures var r := RiskLevel.FromBits(b & 0x03);
            && (r == Low <==> b & 0x03 == 0) && (r == Medium <==> b & 0x03 == 1)
            && (r == Critical <==> b & 0x03 == 2) && (r == Catastrophic <==> b & 0x03 == 3)
    ensures var s := BodyStance.FromBits(b & 0x03);
            && (s == Seated <==> b & 0x03 == 0) && (s == Standing <==> b & 0x03 == 1)
            && (s == Moving <==> b & 0x03 == 2) && (s == UnknownStance <==> b & 0x03 == 3)
    ensures var e := ProximityEdge.FromBits(b & 0x03);
            && (e == Safe <==> b & 0x03 == 0) && (e == Warning <==> b & 0x03 == 1)
            && (e == Danger <==> b & 0x03 == 2) && (e == CriticalEdge <==> b & 0x03 == 3)
  {
    Masks(b);
    assert (b & 0x03) & 0x03 == b & 0x03;
  }

  /** Decoded headers have the documented fields, and so do the bytes an encoder writes. */
  lemma FieldLayout(buf: seq<Byte>, p: PfpHeader)
    requires |buf| == PFP_SIZE
    ensures FieldsAt(Decode(buf), buf[2], buf[3])
    ensures FieldsAt(p.(reserved := 0), Encode(p)[2], Encode(p)[3])
  {
    DecodedFields(buf);
    DecodeEncode(p);
    DecodedFields(Encode(p));
  }

  lemma DecodedFields(buf: seq<Byte>)
    requires |buf| == PFP_SIZE
    ensures FieldsAt(Decode(buf), buf[2], buf[3])
  {
    hide Modality.FromBits, RiskLevel.FromBits, BodyStance.FromBits, ProximityEdge.FromBits;
    var b := buf[2];
    Masks(b);
    Codes(b);
    Codes(b >> 2);
    Codes(b >> 4);
    Codes(b >> 6);
    ControlBits(buf[3]);
  }

  /** Rule 6 on received bytes: the level counts only while replay protection is on, else it is MEDIUM. */
  lemma EffectiveRiskOnWire(buf: seq<Byte>)
    requires |buf| == PFP_SIZE
    ensures var level, on := Decode(buf).EffectiveRiskLevel(), buf[3] & 0x04 != 0;
            && (level == Low <==> on && buf[2] & 0x0C == 0x00)
            && (level == Medium <==> !on || buf[2] & 0x0C == 0x04)
            && (level == Critical <==> on && buf[2] & 0x0C == 0x08)
            && (level == Catastrophic <==> on && buf[2] & 0x0C == 0x0C)
  {
    hide Decode;
    DecodedFields(buf);
  }

  /** The override test names two fields: both bits of the level set, and the override bit. */
  lemma OverrideBits(buf: seq<Byte>)
    requires |buf| == PFP_SIZE
    ensures IsCatastrophicBytes(buf) <==> buf[2] & 0x0C == 0x0C && buf[3] & 0x02 != 0
  {
    Masks(buf[2]);
    OneBit(buf[3]);
    assert (buf[3] >> 1) & 0x01 == 0 || (buf[3] >> 1) & 0x01 == 1;
  }

  /**
   The raw-byte test agrees with the header test, on received bytes and on re-encoded headers;
   and both mean level Catastrophic together with a hard override.
   */
  lemma CatastrophicTestsAgree(p: PfpHeader, buf: seq<Byte>)
    requires |buf| == PFP_SIZE
    ensures p.IsCatastrophicOverride() <==> p.riskLevel == Catastrophic && p.overrideFlag == HardOverride
    ensures IsCatastrophicBytes(buf) <==> buf[2] & 0x0C == 0x0C && buf[3] & 0x02 != 0
    ensures IsCatastrophicBytes(Encode(p)) <==> p.IsCatastrophicOverride()
    ensures IsCatastrophicBytes(buf) <==> Decode(buf).IsCatastrophicOverride()
  {
    FeatureFields(p);
    ControlFields(p);
    CatastrophicBits(buf);
    OverrideBits(buf);
  }

  lemma CatastrophicBits(buf: seq<Byte>)
    requires |buf| == PFP_SIZE
    ensures IsCatastrophicBytes(buf) <==> Decode(buf).IsCatastrophicOverride()
  {
    OneBit(buf[3]);
  }

  lemma OneBit(b: Byte)
    ensures (b >> 1) & 0x01 == 1 <==> b & 0x02 != 0
  {
  }

  /**
   An override frame counts as catastrophic although rule 6 lowers its effective level
   exactly when replay protection is switched off.
   */
  lemma OverrideIgnoresDowngrade(p: PfpHeader)
    requires p.IsCatastrophicOverride()
    ensures p.EffectiveRiskLevel() != Catastrophic <==> !p.replayEnable
    ensures IsCatastrophicBytes(Encode(p))
  {
    CatastrophicTestsAgree(p, Encode(p));
  }
}
