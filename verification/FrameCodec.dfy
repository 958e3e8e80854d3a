/** What the frame format promises: both inverses, self-delimitation, and the error order. */
module FrameCodec {
  import opened Bytes
  import opened Wrappers
  import opened Frame
  import Pfp
  import Sap

  /** Header flags, lengths and optional layers tell the same story, and no field is out of its wire range. */
  predicate Consistent(f: BindFrame) {
    && f.header.frameType.Canonical()
    && f.header.HasPfp() == f.pfp.Some?
    && f.header.HasSap() == f.sap.Some?
    && f.header.payloadLength == |f.payload| <= MAX_PAYLOAD_SIZE
    && (f.pfp.Some? ==> f.pfp.value.reserved == 0)
    && (f.sap.Some? ==> f.sap.value.sapVersion < 16)
  }

  /** `f` with the reserved PFP bits dropped. */
  function WithoutReserved(f: BindFrame): BindFrame {
    if f.pfp.Some? then f.(pfp := Some(f.pfp.value.(reserved := 0))) else f
  }

  /** The bytes `b` of one frame with the reserved bits of PFP byte 3 and SAP byte 3 cleared. */
  function ClearReserved(h: BindHeader, b: seq<Byte>): seq<Byte>
    requires |b| >= HEADER_SIZE + h.ExtensionLength()
  {
    var c := if h.HasPfp() then b[11 := b[11] & 0x07] else b;
    var at := if h.HasPfp() then 15 else 11;
    if h.HasSap() then c[at := c[at] & 0x0F] else c
  }

  /** The wire codes of the frame types (src/frame.rs); every other byte is kept as it is. */
  predicate TypeCode(t: FrameType, b: Byte) {
    && (t == Data <==> b == 0x01) && (t == Heartbeat <==> b == 0x02)
    && (t == Control <==> b == 0x03) && (t == Vector <==> b == 0x04)
    && (t == Handshake <==> b == 0x05) && (t == FrameType.Error <==> b == 0x06)
    && (t == KeyRotation <==> b == 0x07) && (t == KeyRotationAck <==> b == 0x08)
    && (t.Unknown? <==> b == 0x00 || b > 0x08) && (t.Unknown? ==> t.code == b)
  }

  lemma TypeRoundTrip(t: FrameType, b: Byte)
    ensures TypeCode(FrameType.FromByte(b), b)
    ensures t.Canonical() <==> TypeCode(t, t.ToByte())
    ensures FrameType.FromByte(b).ToByte() == b
    ensures FrameType.FromByte(b).Canonical()
    ensures FrameType.FromByte(t.ToByte()) == t <==> t.Canonical()
  {
    ByteCases(b);
    if t.Unknown? { ByteCases(t.code); }
  }

  lemma ByteCases(b: Byte)
    ensures b == 0 || b == 1 || b == 2 || b == 3 || b == 4 || b == 5 || b == 6 || b == 7 || b == 8 || b > 8
  {
  }

  lemma HeaderRoundTrip(h: BindHeader)
    ensures DecodeHeader(EncodeHeader(h)) == h.(frameType := FrameType.FromByte(h.frameType.ToByte()))
    ensures DecodeHeader(EncodeHeader(h)) == h <==> h.frameType.Canonical()
  {
    var buf := EncodeHeader(h);
    assert buf[4..8] == ToBe(4, h.payloadLength);
    U32RoundTrip(h.payloadLength, buf[4..8]);
    TypeRoundTrip(h.frameType, 0);
  }

  lemma HeaderReencoded(buf: seq<Byte>)
    requires |buf| == HEADER_SIZE
    ensures EncodeHeader(DecodeHeader(buf)) == buf
    ensures DecodeHeader(buf).frameType.Canonical()
  {
    TypeRoundTrip(Data, buf[0]);
    U32RoundTrip(0, buf[4..8]);
    assert buf == [buf[0], buf[1], buf[2], buf[3]] + buf[4..8];
  }

  /** How many bytes the extension layers of `f` really take. */
  function LayersLength(f: BindFrame): nat {
    (if f.pfp.Some? then 4 else 0) + (if f.sap.Some? then 28 else 0)
  }

  lemma Layout(f: BindFrame, rest: seq<Byte>)
    ensures var buf := EncodeFrame(f) + rest;
            && |buf| == 8 + LayersLength(f) + |f.payload| + |rest|
            && buf[..8] == EncodeHeader(f.header)
            && buf[8..] == EncodePfp(f.pfp) + EncodeSap(f.sap) + f.payload + rest
  {
    var buf := EncodeFrame(f) + rest;
    assert buf == EncodeHeader(f.header) + (EncodePfp(f.pfp) + EncodeSap(f.sap) + f.payload + rest);
  }

  /** The extension layers of an encoded frame, read back under matching flags. */
  lemma LayersRoundTrip(f: BindFrame, body: seq<Byte>, tail: seq<Byte>)
    requires body == EncodePfp(f.pfp) + EncodeSap(f.sap) + tail
    requires f.header.HasPfp() == f.pfp.Some? && f.header.HasSap() == f.sap.Some?
    ensures DecodePfp(f.header, body) == Ok(if f.pfp.Some? then Some(f.pfp.value.(reserved := 0)) else None)
    ensures DecodeSap(f.header, body)
            == Ok(if f.sap.Some? then Some(f.sap.value.(sapVersion := f.sap.value.sapVersion & 0x0F)) else None)
  {
    if f.pfp.Some? {
      assert body[..4] == Pfp.Encode(f.pfp.value);
      Pfp.DecodeEncode(f.pfp.value);
    }
    if f.sap.Some? {
      var at := if f.pfp.Some? then 4 else 0;
      assert body[at..at + 28] == Sap.Encode(f.sap.value);
      Sap.DecodeEncode(f.sap.value);
    }
  }

  /** A complete buffer decodes to the frame its parts decode to. */
  lemma FromParts(buf: seq<Byte>, f: BindFrame)
    requires |buf| >= f.header.TotalFrameLength() && f.header.payloadLength <= MAX_PAYLOAD_SIZE
    requires DecodeHeader(buf[..8]) == f.header
    requires DecodePfp(f.header, buf[8..]) == Ok(f.pfp) && DecodeSap(f.header, buf[8..]) == Ok(f.sap)
    requires f.payload == buf[8 + f.header.ExtensionLength()..f.header.TotalFrameLength()]
    ensures DecodeFrame(buf) == Ok(f)
  {
    hide DecodeHeader, DecodePfp, DecodeSap;
    var at := f.header.ExtensionLength();
    assert buf[8..][at..at + f.header.payloadLength] == f.payload;
  }

  /** The payload of an encoded frame, by position. */
  lemma PayloadAt(f: BindFrame, rest: seq<Byte>)
    ensures var n := 8 + LayersLength(f); (EncodeFrame(f) + rest)[n..n + |f.payload|] == f.payload
  {
    var front := EncodeHeader(f.header) + EncodePfp(f.pfp) + EncodeSap(f.sap);
    assert EncodeFrame(f) + rest == front + f.payload + rest;
  }

  lemma RoundTripIf(f: BindFrame, rest: seq<Byte>)
    requires Consistent(f)
    ensures DecodeFrame(EncodeFrame(f) + rest) == Ok(f)
  {
    hide DecodeFrame, EncodeFrame, DecodeHeader, EncodeHeader, DecodePfp, DecodeSap, EncodePfp, EncodeSap;
    var buf := EncodeFrame(f) + rest;
    Layout(f, rest);
    HeaderRoundTrip(f.header);
    var body := buf[8..];
    assert body == EncodePfp(f.pfp) + EncodeSap(f.sap) + (f.payload + rest);
    LayersRoundTrip(f, body, f.payload + rest);
    if f.sap.Some? { Sap.LowNibble(f.sap.value.sapVersion); }
    PayloadAt(f, rest);
    FromParts(buf, f);
  }

  lemma SliceOfSlice(b: seq<Byte>, lo: nat, hi: nat, i: nat, j: nat)
    requires lo <= hi <= |b| && i <= j <= hi - lo
    ensures b[lo..hi][i..j] == b[lo + i..lo + j]
  {
    var x, y := b[lo..hi][i..j], b[lo + i..lo + j];
    assert |x| == |y| == j - i;
    forall k | 0 <= k < j - i
      ensures x[k] == y[k]
    {
      assert x[k] == b[lo..hi][i + k] == b[lo + (i + k)] == b[(lo + i) + k];
    }
  }

  /** The parts of a successful decode. */
  lemma DecodedParts(b: seq<Byte>, f: BindFrame)
    requires DecodeFrame(b) == Ok(f)
    ensures 8 <= f.header.TotalFrameLength() <= |b| && f.header.payloadLength <= MAX_PAYLOAD_SIZE
    ensures f.header == DecodeHeader(b[..8])
    ensures DecodePfp(f.header, b[8..]) == Ok(f.pfp) && DecodeSap(f.header, b[8..]) == Ok(f.sap)
    ensures f.payload == b[8 + f.header.ExtensionLength()..f.header.TotalFrameLength()]
    ensures f.header.HasPfp() == f.pfp.Some? && f.header.HasSap() == f.sap.Some?
  {
    hide Pfp.Decode, Pfp.VerifyMagic, Sap.Decode, Sap.VerifyMagic, Sap.VerifyProtocolId, DecodeHeader;
    var at := DecodeHeader(b[..8]).ExtensionLength();
    assert b[8..] == b[8..|b|];
    SliceOfSlice(b, 8, |b|, at, at + DecodeHeader(b[..8]).payloadLength);
  }

  /** A frame read back unchanged has a canonical type, honest flags and an honest payload length. */
  lemma OnlyIfHeader(f: BindFrame, rest: seq<Byte>)
    requires DecodeFrame(EncodeFrame(f) + rest) == Ok(f)
    ensures f.header.frameType.Canonical()
    ensures f.header.HasPfp() == f.pfp.Some? && f.header.HasSap() == f.sap.Some?
    ensures f.header.payloadLength == |f.payload| <= MAX_PAYLOAD_SIZE
    ensures DecodePfp(f.header, (EncodeFrame(f) + rest)[8..]) == Ok(f.pfp)
    ensures DecodeSap(f.header, (EncodeFrame(f) + rest)[8..]) == Ok(f.sap)
  {
    hide DecodeFrame, EncodeFrame, EncodeHeader, DecodeHeader, DecodePfp, DecodeSap;
    DecodedParts(EncodeFrame(f) + rest, f);
    Layout(f, rest);
    HeaderRoundTrip(f.header);
  }

  lemma RoundTripOnlyIf(f: BindFrame, rest: seq<Byte>)
    requires DecodeFrame(EncodeFrame(f) + rest) == Ok(f)
    ensures Consistent(f)
  {
    hide DecodeFrame, EncodeFrame, DecodePfp, DecodeSap, EncodePfp, EncodeSap;
    OnlyIfHeader(f, rest);
    Layout(f, rest);
    var body := (EncodeFrame(f) + rest)[8..];
    assert body == EncodePfp(f.pfp) + EncodeSap(f.sap) + (f.payload + rest);
    LayersRoundTrip(f, body, f.payload + rest);
    if f.sap.Some? { Sap.LowNibble(f.sap.value.sapVersion); }
  }

  /** Decoding an encoding gives the frame back exactly when the frame is consistent, whatever follows it. */
  lemma RoundTrip(f: BindFrame, rest: seq<Byte>)
    ensures DecodeFrame(EncodeFrame(f) + rest) == Ok(f) <==> Consistent(f)
  {
    if Consistent(f) {
      RoundTripIf(f, rest);
    }
    if DecodeFrame(EncodeFrame(f) + rest) == Ok(f) {
      RoundTripOnlyIf(f, rest);
    }
  }

  lemma NewFlags(hasPfp: bool, hasSap: bool)
    ensures var f1 := if hasPfp then 0 as Byte | FLAG_PFP_PRESENT else 0;
            var f2 := if hasSap then f1 | FLAG_SAP_PRESENT else f1;
            f2 == (if hasPfp then 0x08 else 0x00) + (if hasSap then 0x10 else 0x00) &&
            (f2 & FLAG_PFP_PRESENT != 0) == hasPfp && (f2 & FLAG_SAP_PRESENT != 0) == hasSap
  {
  }

  /**
   `new` refuses exactly an oversized payload or a SAP without PFP, the size first; and a
   frame it builds survives the wire exactly when its type is canonical, its reserved bits
   are zero and its SAP version fits four bits.
   */
  lemma NewRoundTrip(frameType: FrameType, channelId: Byte, sequenceId: Byte,
                     pfp: Option<Pfp.PfpHeader>, sap: Option<Sap.SapHeader>, payload: seq<Byte>, rest: seq<Byte>)
    ensures var r := New(frameType, channelId, sequenceId, pfp, sap, payload);
            && (r == Err(BufferOverflow) <==> |payload| > 0x0400_0000)
            && (r == Err(SapWithoutPfp) <==> |payload| <= 0x0400_0000 && sap.Some? && pfp.None?)
            && (r.Ok? <==> |payload| <= 0x0400_0000 && (sap.Some? ==> pfp.Some?))
            && (r.Ok? ==>
                  && r.value.pfp == pfp && r.value.sap == sap && r.value.payload == payload
                  && r.value.header.frameType == frameType
                  && r.value.header.channelId == channelId && r.value.header.sequenceId == sequenceId
                  && r.value.header.payloadLength == |payload|
                  && r.value.header.flags == (if pfp.Some? then 0x08 else 0x00) + (if sap.Some? then 0x10 else 0x00)
                  && |EncodeFrame(r.value)| == r.value.header.TotalFrameLength()
                  && (DecodeFrame(EncodeFrame(r.value) + rest) == r <==>
                        && frameType.Canonical()
                        && (pfp.Some? ==> pfp.value.reserved == 0)
                        && (sap.Some? ==> sap.value.sapVersion < 16)))
  {
    NewFlags(pfp.Some?, sap.Some?);
    var r := New(frameType, channelId, sequenceId, pfp, sap, payload);
    if r.Ok? {
      assert r.value.header.HasPfp() == pfp.Some?;
      assert r.value.header.HasSap() == sap.Some?;
      RoundTrip(r.value, rest);
    }
  }

  /** Re-encoding the extension layers of received bytes. */
  lemma LayersReencoded(h: BindHeader, body: seq<Byte>, pfp: Option<Pfp.PfpHeader>, sap: Option<Sap.SapHeader>)
    requires |body| >= h.ExtensionLength()
    requires DecodePfp(h, body) == Ok(pfp) && DecodeSap(h, body) == Ok(sap)
    ensures h.HasPfp() == pfp.Some? && h.HasSap() == sap.Some?
    ensures pfp.Some? ==> EncodePfp(pfp) == body[..4][3 := body[3] & 0x07]
    ensures sap.Some? ==> sap.value.sapVersion < 16
    ensures sap.Some? ==> var at := if h.HasPfp() then 4 else 0;
                          EncodeSap(sap) == body[at..at + 28][3 := body[at + 3] & 0x0F]
  {
    hide Pfp.Decode, Pfp.Encode, Sap.Decode, Sap.Encode, Sap.VerifyProtocolId, Sap.VerifyMagic, Pfp.VerifyMagic;
    if h.HasPfp() {
      Pfp.EncodeDecode(body[..4]);
    }
    if h.HasSap() {
      var at := if h.HasPfp() then 4 else 0;
      Sap.EncodeDecode(body[at..at + 28]);
    }
  }

  /** What a successful decode leaves: a frame consistent up to its reserved bits. */
  lemma DecodedConsistent(b: seq<Byte>, f: BindFrame)
    requires DecodeFrame(b) == Ok(f)
    ensures Consistent(WithoutReserved(f))
    ensures EncodeFrame(WithoutReserved(f)) == EncodeFrame(f)
  {
    hide DecodeFrame, EncodeHeader, DecodeHeader, DecodePfp, DecodeSap;
    DecodedParts(b, f);
    HeaderReencoded(b[..8]);
    LayersReencoded(f.header, b[8..], f.pfp, f.sap);
    if f.pfp.Some? {
      assert Pfp.Encode(f.pfp.value.(reserved := 0)) == Pfp.Encode(f.pfp.value);
    }
  }

  /**
   A decoded frame re-encodes to the bytes it came from, with only the reserved bits of
   PFP byte 3 and SAP byte 3 cleared; decoding that again loses only the reserved bits.
   */
  lemma Reencode(b: seq<Byte>, f: BindFrame)
    requires DecodeFrame(b) == Ok(f)
    ensures f.header.TotalFrameLength() <= |b|
    ensures EncodeFrame(f) == ClearReserved(f.header, b[..f.header.TotalFrameLength()])
    ensures DecodeFrame(EncodeFrame(f)) == Ok(WithoutReserved(f))
  {
    DecodedParts(b, f);
    DecodedConsistent(b, f);
    HeaderReencoded(b[..8]);
    LayersReencoded(f.header, b[8..], f.pfp, f.sap);
    ReencodeLayout(b, f);
    RoundTripIf(WithoutReserved(f), []);
    assert EncodeFrame(f) + [] == EncodeFrame(f);
  }

  lemma UpdatePiece(front: seq<Byte>, mid: seq<Byte>, rest: seq<Byte>, i: nat, v: Byte)
    requires i < |mid|
    ensures (front + mid + rest)[|front| + i] == mid[i]
    ensures (front + mid + rest)[|front| + i := v] == front + mid[i := v] + rest
  {
  }

  /** Clearing the reserved bits, layer by layer. */
  lemma ClearPieces(h: BindHeader, head: seq<Byte>, pfp: seq<Byte>, sap: seq<Byte>, payload: seq<Byte>)
    requires |head| == 8 && |pfp| == (if h.HasPfp() then 4 else 0) && |sap| == (if h.HasSap() then 28 else 0)
    ensures ClearReserved(h, head + pfp + sap + payload)
            == head + (if h.HasPfp() then pfp[3 := pfp[3] & 0x07] else [])
               + (if h.HasSap() then sap[3 := sap[3] & 0x0F] else []) + payload
  {
    var b := head + pfp + sap + payload;
    var pfp' := if h.HasPfp() then pfp[3 := pfp[3] & 0x07] else pfp;
    var c := head + pfp' + sap + payload;
    assert b == head + pfp + (sap + payload) && c == head + pfp' + (sap + payload);
    if h.HasPfp() {
      UpdatePiece(head, pfp, sap + payload, 3, pfp[3] & 0x07);
      assert c == b[11 := b[11] & 0x07];
    }
    if h.HasSap() {
      UpdatePiece(head + pfp', sap, payload, 3, sap[3] & 0x0F);
    }
  }

  lemma CutInPieces(b: seq<Byte>, p: nat, x: nat)
    requires 8 <= p <= x <= |b|
    ensures b == b[..8] + b[8..p] + b[p..x] + b[x..]
  {
  }

  lemma ReencodeLayout(b: seq<Byte>, f: BindFrame)
    requires 8 <= f.header.TotalFrameLength() <= |b|
    requires EncodeHeader(f.header) == b[..8]
    requires f.header.HasPfp() == f.pfp.Some? && f.header.HasSap() == f.sap.Some?
    requires f.pfp.Some? ==> EncodePfp(f.pfp) == b[8..][..4][3 := b[8..][3] & 0x07]
    requires f.sap.Some? ==> var at := if f.header.HasPfp() then 4 else 0;
                             EncodeSap(f.sap) == b[8..][at..at + 28][3 := b[8..][at + 3] & 0x0F]
    requires f.payload == b[8 + f.header.ExtensionLength()..f.header.TotalFrameLength()]
    ensures EncodeFrame(f) == ClearReserved(f.header, b[..f.header.TotalFrameLength()])
  {
    hide EncodeHeader, EncodePfp, EncodeSap, ClearReserved;
    var h := f.header;
    var n := h.TotalFrameLength();
    var b0 := b[..n];
    var p := if h.HasPfp() then 12 else 8;
    var x := 8 + h.ExtensionLength();
    EmptyLayers();
    assert b0[..8] == b[..8] && b0[x..] == f.payload;
    assert b[8..] == b[8..|b|] && b0 == b[0..n];
    SliceOfSlice(b, 0, n, 8, p);
    SliceOfSlice(b, 0, n, p, x);
    SliceOfSlice(b, 8, |b|, 0, p - 8);
    SliceOfSlice(b, 8, |b|, p - 8, x - 8);
    assert h.HasPfp() ==> b0[8..p] == b[8..][..4] && b0[8..p][3] == b[8..][3];
    assert h.HasSap() ==> b0[p..x] == b[8..][p - 8..p - 8 + 28] && b0[p..x][3] == b[8..][p - 8 + 3];
    CutInPieces(b0, p, x);
    ClearPieces(h, b0[..8], b0[8..p], b0[p..x], b0[x..]);
  }

  lemma EmptyLayers()
    ensures EncodePfp(None) == [] && EncodeSap(None) == []
  {
  }

  /** Any answer other than "incomplete" is final: further bytes do not change it. */
  lemma Stable(b: seq<Byte>, more: seq<Byte>)
    requires DecodeFrame(b).Err? ==> !DecodeFrame(b).error.Incomplete()
    ensures DecodeFrame(b + more) == DecodeFrame(b)
  {
    assert |b| >= 8;
    assert (b + more)[..8] == b[..8];
    var h := DecodeHeader(b[..8]);
    assert |b| >= h.TotalFrameLength();
    var body, longer := b[8..], (b + more)[8..];
    assert longer == body + more;
    LayersStable(h, body, more);
    var at := h.ExtensionLength();
    assert longer[at..at + h.payloadLength] == body[at..at + h.payloadLength];
  }

  lemma LayersStable(h: BindHeader, body: seq<Byte>, more: seq<Byte>)
    requires |body| >= h.ExtensionLength()
    ensures DecodePfp(h, body + more) == DecodePfp(h, body)
    ensures DecodeSap(h, body + more) == DecodeSap(h, body)
  {
    if h.HasPfp() {
      assert (body + more)[..4] == body[..4];
    }
    if h.HasSap() {
      var at := if h.HasPfp() then 4 else 0;
      assert (body + more)[at..at + 28] == body[at..at + 28];
    }
  }

  /** Every proper prefix of an encoding asks for more bytes, and says which part is missing. */
  lemma ProperPrefix(f: BindFrame, k: nat)
    requires Consistent(f) && k < |EncodeFrame(f)|
    ensures DecodeFrame(EncodeFrame(f)[..k]) == Err(if k < 8 then IncompleteHeader else IncompleteFrame)
  {
    Layout(f, []);
    HeaderRoundTrip(f.header);
    var e := EncodeFrame(f);
    assert e + [] == e;
    if k >= 8 {
      assert e[..k][..8] == e[..8];
    }
  }

  /** No encoding is the start of another: a byte string begins with at most one consistent frame. */
  lemma SelfDelimiting(f: BindFrame, g: BindFrame, x: seq<Byte>, y: seq<Byte>)
    requires Consistent(f) && Consistent(g)
    requires EncodeFrame(f) + x == EncodeFrame(g) + y
    ensures f == g && x == y
  {
    RoundTripIf(f, x);
    RoundTripIf(g, y);
    assert x == (EncodeFrame(f) + x)[|EncodeFrame(f)|..];
  }

  /** Bytes `i` and `i + 1` of `b` are not the family magic. */
  predicate BadMagicAt(b: seq<Byte>, i: nat)
    requires i + 1 < |b|
  {
    b[i] != 0xCF || b[i + 1] != 0x14
  }

  lemma PfpErrors(h: BindHeader, body: seq<Byte>)
    requires |body| >= h.ExtensionLength()
    ensures var r := DecodePfp(h, body);
            && (r == Err(InvalidPfpMagic) <==> h.HasPfp() && BadMagicAt(body, 0))
            && (r.Err? ==> r.error == InvalidPfpMagic)
  {
    hide Pfp.Decode, Pfp.VerifyMagic;
    if h.HasPfp() {
      Pfp.MagicBytes(body[..4]);
    }
  }

  lemma SapErrors(h: BindHeader, body: seq<Byte>)
    requires |body| >= h.ExtensionLength()
    ensures var r, at := DecodeSap(h, body), if h.HasPfp() then 4 else 0;
            && (r == Err(InvalidSapMagic) <==> h.HasSap() && BadMagicAt(body, at))
            && (r == Err(InvalidSapProtocolId) <==> h.HasSap() && !BadMagicAt(body, at) && body[at + 2] != 0x01)
            && (r.Err? ==> r.error == InvalidSapMagic || r.error == InvalidSapProtocolId)
  {
    hide Sap.Decode, Pfp.VerifyMagic;
    if h.HasSap() {
      var at := if h.HasPfp() then 4 else 0;
      var x := body[at..at + 28];
      assert x[0] == body[at] && x[1] == body[at + 1] && x[2] == body[at + 2];
      Pfp.MagicBytes(x);
    }
  }

  /**
   The order in which defects are reported, by byte position. The size limit is looked at
   only once the whole frame has arrived, so an oversized announcement alone is "incomplete".
   */
  lemma ErrorOrder(b: seq<Byte>)
    ensures DecodeFrame(b) == Err(IncompleteHeader) <==> |b| < 8
    ensures DecodeFrame(b) != Err(SapWithoutPfp)
    ensures |b| >= 8 ==>
      var h := DecodeHeader(b[..8]);
      && (DecodeFrame(b) == Err(IncompleteFrame) <==> |b| < h.TotalFrameLength())
      && (|b| >= h.TotalFrameLength() ==>
            var over := h.payloadLength > 0x0400_0000;
            var s := if h.HasPfp() then 12 else 8;
            var badPfp := h.HasPfp() && BadMagicAt(b, 8);
            var badSap := h.HasSap() && BadMagicAt(b, s);
            var badId := h.HasSap() && b[s + 2] != 0x01;
            && (DecodeFrame(b) == Err(BufferOverflow) <==> over)
            && (DecodeFrame(b) == Err(InvalidPfpMagic) <==> !over && badPfp)
            && (DecodeFrame(b) == Err(InvalidSapMagic) <==> !over && !badPfp && badSap)
            && (DecodeFrame(b) == Err(InvalidSapProtocolId) <==> !over && !badPfp && !badSap && badId)
            && (DecodeFrame(b).Ok? <==> !over && !badPfp && !badSap && !badId))
  {
    hide DecodeHeader, DecodePfp, DecodeSap;
    if |b| >= 8 {
      var h := DecodeHeader(b[..8]);
      var body := b[8..];
      if |b| >= h.TotalFrameLength() {
        PfpErrors(h, body);
        SapErrors(h, body);
        assert forall i | 0 <= i < |body| :: body[i] == b[8 + i];
      }
    }
  }

  /** The decoder accepts a SAP layer without a PFP layer, although `new` never builds one. */
  lemma SapAloneDecodes(s: Sap.SapHeader, payload: seq<Byte>)
    requires s.sapVersion < 16 && |payload| <= MAX_PAYLOAD_SIZE
    ensures var f := BindFrame(BindHeader(Data, 0, FLAG_SAP_PRESENT, 0, |payload|), None, Some(s), payload);
            && DecodeFrame(EncodeFrame(f)) == Ok(f)
            && New(Data, 0, 0, None, Some(s), payload) == Err(SapWithoutPfp)
  {
    NewFlags(false, true);
    var f := BindFrame(BindHeader(Data, 0, FLAG_SAP_PRESENT, 0, |payload|), None, Some(s), payload);
    assert 0 as Byte | FLAG_SAP_PRESENT == FLAG_SAP_PRESENT;
    RoundTripIf(f, []);
    assert EncodeFrame(f) + [] == EncodeFrame(f);
  }

  // ----- where each field lies on the wire

  lemma HeaderLayout(b: seq<Byte>)
    requires |b| >= 8
    ensures var h := DecodeHeader(b[..8]);
            && TypeCode(h.frameType, b[0])
            && h.frameType.ToByte() == b[0] && h.channelId == b[1] && h.flags == b[2] && h.sequenceId == b[3]
            && h.payloadLength
               == ByteVal(b[4]) * 0x100_0000 + ByteVal(b[5]) * 0x1_0000 + ByteVal(b[6]) * 0x100 + ByteVal(b[7])
  {
    hide ByteVal;
    TypeRoundTrip(Data, b[0]);
    assert b[..8][4..8] == [b[4], b[5], b[6], b[7]];
    BeQuad(b[4], b[5], b[6], b[7]);
  }

  lemma PfpLayout(x: seq<Byte>)
    requires |x| == 4
    ensures var p := Pfp.Decode(x);
            && Pfp.FieldsAt(p, x[2], x[3])
            && p.modality.ToBits() == x[2] & 0x03
            && p.riskLevel.ToBits() == (x[2] >> 2) & 0x03
            && p.bodyStance.ToBits() == (x[2] >> 4) & 0x03
            && p.proximityEdge.ToBits() == x[2] >> 6
            && (p.outputDest == Pfp.External <==> x[3] & 0x01 != 0)
            && (p.overrideFlag == Pfp.HardOverride <==> x[3] & 0x02 != 0)
            && (p.replayEnable <==> x[3] & 0x04 != 0)
            && p.reserved == x[3] >> 3
  {
    Pfp.FeatureReencoded(x);
    Pfp.FeatureFields(Pfp.Decode(x));
    Pfp.ControlReencoded(x);
    TopBits(x[2]);
    Pfp.DecodedFields(x);
  }

  lemma TopBits(b: Byte)
    ensures (b >> 6) & 0x03 == b >> 6
  {
  }

  lemma SapLayout(b: seq<Byte>, at: nat)
    requires at + 28 <= |b|
    ensures var s := Sap.Decode(b[at..at + 28]);
            && s.sapVersion == b[at + 3] & 0x0F
            && s.seqCounter == ByteVal(b[at + 4]) * 256 + ByteVal(b[at + 5])
            && s.pahHash == b[at + 6..at + 20] && s.pahSignature == b[at + 20..at + 28]
  {
    hide ByteVal;
    var x := b[at..at + 28];
    assert x[4..6] == [x[4], x[5]] == [b[at + 4], b[at + 5]];
    BePair(b[at + 4], b[at + 5]);
    SliceOfSlice(b, at, at + 28, 6, 20);
    SliceOfSlice(b, at, at + 28, 20, 28);
  }

  /** Every field of a received frame, by its position in the received bytes; bytes after the frame play no part. */
  lemma WireLayout(b: seq<Byte>, f: BindFrame)
    requires DecodeFrame(b) == Ok(f)
    ensures |b| >= f.header.TotalFrameLength() >= 8
    ensures TypeCode(f.header.frameType, b[0]) && f.header.channelId == b[1]
    ensures f.header.flags == b[2] && f.header.sequenceId == b[3]
    ensures |f.payload| == f.header.payloadLength
            == ByteVal(b[4]) * 0x100_0000 + ByteVal(b[5]) * 0x1_0000 + ByteVal(b[6]) * 0x100 + ByteVal(b[7])
    ensures f.pfp.Some? <==> b[2] & 0x08 != 0
    ensures f.sap.Some? <==> b[2] & 0x10 != 0
    ensures f.pfp.Some? ==>
      var p := f.pfp.value;
      |b| >= 12 && b[8] == 0xCF && b[9] == 0x14 && Pfp.FieldsAt(p, b[10], b[11])
    ensures f.sap.Some? ==>
      var at := if f.pfp.Some? then 12 else 8;
      && |b| >= at + 28 && b[at] == 0xCF && b[at + 1] == 0x14 && b[at + 2] == 0x01
      && f.sap.value.sapVersion == b[at + 3] & 0x0F
      && f.sap.value.seqCounter == ByteVal(b[at + 4]) * 256 + ByteVal(b[at + 5])
      && f.sap.value.pahHash == b[at + 6..at + 20] && f.sap.value.pahSignature == b[at + 20..at + 28]
    ensures f.payload == b[f.header.TotalFrameLength() - |f.payload|..f.header.TotalFrameLength()]
  {
    hide DecodeFrame, DecodeHeader, Pfp.Decode, Pfp.VerifyMagic, Sap.Decode, ByteVal, TypeCode, Pfp.FieldsAt;
    DecodedParts(b, f);
    HeaderLayout(b);
    var body := b[8..];
    if f.pfp.Some? {
      assert body[..4] == b[8..12];
      Pfp.MagicBytes(body[..4]);
      PfpLayout(body[..4]);
    }
    if f.sap.Some? {
      var at := if f.pfp.Some? then 12 else 8;
      assert body[at - 8..at - 8 + 28] == b[at..at + 28];
      Pfp.MagicBytes(b[at..at + 28]);
      SapLayout(b, at);
    }
  }
}
