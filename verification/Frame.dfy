/**
 BIND-19 frames (src/frame.rs): the 8-byte header, the optional PFP and SAP extension
 layers and the payload. `EncodeFrame` and `DecodeFrame` are the byte format; the
 methods `Encode` and `Decode` are the source's buffer-building and offset-walking code.
 `usize` is taken to be 64 bits wide, so lengths do not overflow.
 */
module Frame {
  import opened Bytes
  import opened Wrappers
  import Pfp
  import Sap

  const HEADER_SIZE: nat := 8
  const MAX_PAYLOAD_SIZE: nat := 0x0400_0000
  const FLAG_PFP_PRESENT: Byte := 0x08
  const FLAG_SAP_PRESENT: Byte := 0x10

  datatype FrameType =
    | Data | Heartbeat | Control | Vector | Handshake | Error | KeyRotation | KeyRotationAck
    | Unknown(code: Byte)
  {
    static function FromByte(b: Byte): FrameType {
      if b == 0x01 then Data
      else if b == 0x02 then Heartbeat
      else if b == 0x03 then Control
      else if b == 0x04 then Vector
      else if b == 0x05 then Handshake
      else if b == 0x06 then Error
      else if b == 0x07 then KeyRotation
      else if b == 0x08 then KeyRotationAck
      else Unknown(b)
    }

    function ToByte(): Byte {
      match this
      case Data => 0x01
      case Heartbeat => 0x02
      case Control => 0x03
      case Vector => 0x04
      case Handshake => 0x05
      case Error => 0x06
      case KeyRotation => 0x07
      case KeyRotationAck => 0x08
      case Unknown(b) => b
    }

    /** `Unknown` does not hide one of the named codes. */
    predicate Canonical() {
      Unknown? ==> code == 0 || code > 8
    }
  }

  datatype BindHeader = BindHeader(
    frameType: FrameType,
    channelId: Byte,
    flags: Byte,
    sequenceId: Byte,
    payloadLength: U32)
  {
    predicate HasPfp() {
      flags & FLAG_PFP_PRESENT != 0
    }

    predicate HasSap() {
      flags & FLAG_SAP_PRESENT != 0
    }

    function ExtensionLength(): nat {
      (if HasPfp() then Pfp.PFP_SIZE else 0) + (if HasSap() then Sap.SAP_SIZE else 0)
    }

    function TotalFrameLength(): nat {
      HEADER_SIZE + ExtensionLength() + payloadLength
    }
  }

  function EncodeHeader(h: BindHeader): (buf: seq<Byte>)
    ensures |buf| == HEADER_SIZE
  {
    [h.frameType.ToByte(), h.channelId, h.flags, h.sequenceId] + ToBe(4, h.payloadLength)
  }

  function DecodeHeader(buf: seq<Byte>): BindHeader
    requires |buf| == HEADER_SIZE
  {
    BindHeader(FrameType.FromByte(buf[0]), buf[1], buf[2], buf[3], U32FromBe(buf[4..8]))
  }

  datatype BindFrame = BindFrame(
    header: BindHeader,
    pfp: Option<Pfp.PfpHeader>,
    sap: Option<Sap.SapHeader>,
    payload: seq<Byte>)

  datatype FrameError =
    | IncompleteHeader
    | IncompleteFrame
    | BufferOverflow
    | SapWithoutPfp
    | InvalidPfpMagic
    | InvalidSapMagic
    | InvalidSapProtocolId
  {
    /** More bytes may still turn this error into a frame. */
    predicate Incomplete() {
      IncompleteHeader? || IncompleteFrame?
    }
  }

  type FrameResult = Result<BindFrame, FrameError>

  /** `BindFrame::new`. */
  function New(frameType: FrameType, channelId: Byte, sequenceId: Byte,
               pfp: Option<Pfp.PfpHeader>, sap: Option<Sap.SapHeader>, payload: seq<Byte>): FrameResult
  {
    if |payload| > MAX_PAYLOAD_SIZE then Err(BufferOverflow)
    else if sap.Some? && pfp.None? then Err(SapWithoutPfp)
    else
      var flags0: Byte := 0;
      var flags1 := if pfp.Some? then flags0 | FLAG_PFP_PRESENT else flags0;
      var flags2 := if sap.Some? then flags1 | FLAG_SAP_PRESENT else flags1;
      Ok(BindFrame(BindHeader(frameType, channelId, flags2, sequenceId, |payload|), pfp, sap, payload))
  }

  function EncodePfp(pfp: Option<Pfp.PfpHeader>): seq<Byte> {
    match pfp case None => [] case Some(p) => Pfp.Encode(p)
  }

  function EncodeSap(sap: Option<Sap.SapHeader>): seq<Byte> {
    match sap case None => [] case Some(s) => Sap.Encode(s)
  }

  /** The byte layout of a frame. */
  function EncodeFrame(f: BindFrame): seq<Byte> {
    EncodeHeader(f.header) + EncodePfp(f.pfp) + EncodeSap(f.sap) + f.payload
  }

  /** The PFP layer at the front of the extension area, if announced. */
  function DecodePfp(h: BindHeader, body: seq<Byte>): Result<Option<Pfp.PfpHeader>, FrameError>
    requires |body| >= h.ExtensionLength()
  {
    if !h.HasPfp() then Ok(None)
    else if !Pfp.VerifyMagic(body[..4]) then Err(InvalidPfpMagic)
    else Ok(Some(Pfp.Decode(body[..4])))
  }

  /** The SAP layer that follows it, if announced. */
  function DecodeSap(h: BindHeader, body: seq<Byte>): Result<Option<Sap.SapHeader>, FrameError>
    requires |body| >= h.ExtensionLength()
  {
    var at := if h.HasPfp() then 4 else 0;
    if !h.HasSap() then Ok(None)
    else
      var s := body[at..at + 28];
      if !Sap.VerifyMagic(s) then Err(InvalidSapMagic)
      else if !Sap.VerifyProtocolId(s) then Err(InvalidSapProtocolId)
      else Ok(Some(Sap.Decode(s)))
  }

  /** The frame at the front of `buf`, or the first reason there is none. */
  function DecodeFrame(buf: seq<Byte>): FrameResult {
    if |buf| < HEADER_SIZE then Err(IncompleteHeader)
    else
      var h := DecodeHeader(buf[..8]);
      if |buf| < h.TotalFrameLength() then Err(IncompleteFrame)
      else if h.payloadLength > MAX_PAYLOAD_SIZE then Err(BufferOverflow)
      else
        var body := buf[8..];
        var pfp := DecodePfp(h, body);
        if pfp.Err? then Err(pfp.error)
        else
          var sap := DecodeSap(h, body);
          if sap.Err? then Err(sap.error)
          else
            var at := h.ExtensionLength();
            Ok(BindFrame(h, pfp.value, sap.value, body[at..at + h.payloadLength]))
  }

  /** The source's encoder: a buffer grown layer by layer. */
  method Encode(f: BindFrame) returns (buf: seq<Byte>)
    ensures buf == EncodeFrame(f)
  {
    hide EncodeHeader, Pfp.Encode, Sap.Encode;
    buf := [];
    buf := buf + EncodeHeader(f.header);
    if f.pfp.Some? {
      var p := Pfp.FillBuffer(f.pfp.value);
      buf := buf + p[..];
    }
    if f.sap.Some? {
      var s := Sap.FillBuffer(f.sap.value);
      buf := buf + s[..];
    }
    buf := buf + f.payload;
  }

  /** The source's decoder: layered checks with an advancing offset. */
  method Decode(buf: seq<Byte>) returns (r: FrameResult)
    ensures r == DecodeFrame(buf)
  {
    hide DecodeHeader, Pfp.Decode, Pfp.VerifyMagic, Sap.Decode, Sap.VerifyMagic, Sap.VerifyProtocolId;
    if |buf| < HEADER_SIZE {
      return Err(IncompleteHeader);
    }
    var header := DecodeHeader(buf[0..HEADER_SIZE]);
    assert buf[0..HEADER_SIZE] == buf[..8];
    var total := HEADER_SIZE + header.ExtensionLength() + header.payloadLength;
    if |buf| < total {
      return Err(IncompleteFrame);
    }
    if header.payloadLength > MAX_PAYLOAD_SIZE {
      return Err(BufferOverflow);
    }
    var offset := HEADER_SIZE;
    ghost var body := buf[8..];
    var pfp: Option<Pfp.PfpHeader> := None;
    if header.HasPfp() {
      var pfpBytes := buf[offset..offset + Pfp.PFP_SIZE];
      assert pfpBytes == body[..4];
      if !Pfp.VerifyMagic(pfpBytes) {
        return Err(InvalidPfpMagic);
      }
      offset := offset + Pfp.PFP_SIZE;
      pfp := Some(Pfp.Decode(pfpBytes));
    }
    assert DecodePfp(header, body) == Ok(pfp);
    var sap: Option<Sap.SapHeader> := None;
    if header.HasSap() {
      var sapBytes := buf[offset..offset + Sap.SAP_SIZE];
      assert sapBytes == body[offset - 8..offset - 8 + 28];
      if !Sap.VerifyMagic(sapBytes) {
        return Err(InvalidSapMagic);
      }
      if !Sap.VerifyProtocolId(sapBytes) {
        return Err(InvalidSapProtocolId);
      }
      offset := offset + Sap.SAP_SIZE;
      sap := Some(Sap.Decode(sapBytes));
    }
    assert DecodeSap(header, body) == Ok(sap);
    assert offset == 8 + header.ExtensionLength();
    assert buf[offset..offset + header.payloadLength] == body[offset - 8..offset - 8 + header.payloadLength];
    return Ok(BindFrame(header, pfp, sap, buf[offset..offset + header.payloadLength]));
  }
}
