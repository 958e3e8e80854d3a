/** SAP-xCF14 (src/sap.rs): the 28-byte security attestation header. */
module Sap {
  import opened Bytes
  import Pfp

  const SAP_SIZE: nat := 28
  const SAP_PROTOCOL_ID: Byte := 0x01
  const SAP_VERSION: Byte := 0x01
  const SEQ_ROTATION_THRESHOLD: U16 := 65534

  type PahHash = s: seq<Byte> | |s| == 14 witness seq(14, _ => 0)
  type PahSignature = s: seq<Byte> | |s| == 8 witness seq(8, _ => 0)

  datatype SapHeader = SapHeader(
    sapVersion: Byte,
    seqCounter: U16,
    pahHash: PahHash,
    pahSignature: PahSignature)
  {
    predicate NeedsKeyRotation() {
      seqCounter >= SEQ_ROTATION_THRESHOLD
    }

    /** The header after `increment_seq`: the counter wraps at 16 bits. */
    function Incremented(): SapHeader {
      this.(seqCounter := (seqCounter + 1) % 0x1_0000)
    }
  }

  /** `increment_seq` adds one and wraps from 65535 to zero, and touches nothing else. */
  lemma IncrementWraps(s: SapHeader)
    ensures s.Incremented().seqCounter == 0 <==> s.seqCounter == 65535
    ensures s.seqCounter < 65535 ==> s.Incremented().seqCounter == s.seqCounter + 1
    ensures s.Incremented().(seqCounter := s.seqCounter) == s
    ensures s.NeedsKeyRotation() <==> s.seqCounter == 65534 || s.seqCounter == 65535
  {
  }

  function Encode(s: SapHeader): (buf: seq<Byte>)
    ensures |buf| == SAP_SIZE
  {
    [0xCF, 0x14, SAP_PROTOCOL_ID, s.sapVersion & 0x0F] + ToBe(2, s.seqCounter) + s.pahHash + s.pahSignature
  }

  function Decode(buf: seq<Byte>): SapHeader
    requires |buf| == SAP_SIZE
  {
    SapHeader(buf[3] & 0x0F, U16FromBe(buf[4..6]), buf[6..20], buf[20..28])
  }

  predicate VerifyMagic(buf: seq<Byte>)
    requires |buf| == SAP_SIZE
  {
    Pfp.VerifyMagic(buf)
  }

  predicate VerifyProtocolId(buf: seq<Byte>)
    requires |buf| == SAP_SIZE
  {
    buf[2] == SAP_PROTOCOL_ID
  }

  /** `copy_from_slice`: overwrite the bytes of `buf` from `at` on. */
  method CopyFromSlice(buf: array<Byte>, at: nat, src: seq<Byte>)
    requires at + |src| <= buf.Length
    modifies buf
    ensures forall i | 0 <= i < |src| :: buf[at + i] == src[i]
    ensures forall i | 0 <= i < at || at + |src| <= i < buf.Length :: buf[i] == old(buf[i])
  {
    for k := 0 to |src|
      invariant forall i | 0 <= i < k :: buf[at + i] == src[i]
      invariant forall i | 0 <= i < at || at + k <= i < buf.Length :: buf[i] == old(buf[i])
    {
      buf[at + k] := src[k];
    }
  }

  /** The source's encoder: a zeroed 28-byte buffer, filled field by field. */
  method FillBuffer(s: SapHeader) returns (buf: array<Byte>)
    ensures fresh(buf) && buf[..] == Encode(s)
  {
    hide ToBe;
    buf := new Byte[SAP_SIZE](_ => 0);
    var counter := ToBe(2, s.seqCounter);
    buf[0] := 0xCF;
    buf[1] := 0x14;
    buf[2] := SAP_PROTOCOL_ID;
    buf[3] := s.sapVersion & 0x0F;
    buf[4] := counter[0];
    buf[5] := counter[1];
    CopyFromSlice(buf, 6, s.pahHash);
    CopyFromSlice(buf, 20, s.pahSignature);
    FieldsMakeHeader(buf[..], s);
  }

  lemma FieldsMakeHeader(b: seq<Byte>, s: SapHeader)
    requires |b| == SAP_SIZE
    requires b[0] == 0xCF && b[1] == 0x14 && b[2] == SAP_PROTOCOL_ID && b[3] == s.sapVersion & 0x0F
    requires b[4] == ToBe(2, s.seqCounter)[0] && b[5] == ToBe(2, s.seqCounter)[1]
    requires forall i | 0 <= i < 14 :: b[6 + i] == s.pahHash[i]
    requires forall i | 0 <= i < 8 :: b[20 + i] == s.pahSignature[i]
    ensures b == Encode(s)
  {
    hide ToBe;
    assert b[..4] == [0xCF, 0x14, SAP_PROTOCOL_ID, s.sapVersion & 0x0F];
    assert b[4..6] == ToBe(2, s.seqCounter);
    assert b[6..20] == s.pahHash;
    assert b[20..28] == s.pahSignature;
    assert b == b[..4] + b[4..6] + b[6..20] + b[20..28];
  }

  /** Decoding an encoded header keeps every field but the high bits of the version. */
  lemma DecodeEncode(s: SapHeader)
    ensures VerifyMagic(Encode(s)) && VerifyProtocolId(Encode(s))
    ensures Decode(Encode(s)) == s.(sapVersion := s.sapVersion & 0x0F)
    ensures Decode(Encode(s)) == s <==> s.sapVersion < 16
  {
    var buf := Encode(s);
    Pfp.MagicBytes(buf);
    assert buf[4..6] == ToBe(2, s.seqCounter);
    U16RoundTrip(s.seqCounter, buf[4..6]);
    assert buf[6..20] == s.pahHash;
    assert buf[20..28] == s.pahSignature;
    assert buf[3] == s.sapVersion & 0x0F;
    LowNibble(s.sapVersion);
  }

  lemma LowNibble(b: Byte)
    ensures (b & 0x0F) & 0x0F == b & 0x0F
    ensures b & 0x0F == b <==> b < 16
    ensures b & 0x0F < 16
  {
  }

  /** Re-encoding a received header clears the reserved bits of byte 3 and changes nothing else. */
  lemma EncodeDecode(buf: seq<Byte>)
    requires |buf| == SAP_SIZE && VerifyMagic(buf) && VerifyProtocolId(buf)
    ensures Encode(Decode(buf)) == buf[3 := buf[3] & 0x0F]
    ensures Decode(buf).sapVersion < 16
  {
    hide ToBe, U16FromBe, Pfp.VerifyMagic;
    Pfp.MagicBytes(buf);
    U16RoundTrip(0, buf[4..6]);
    LowNibble(buf[3]);
    var cleared := buf[3 := buf[3] & 0x0F];
    assert cleared[..4] == [0xCF, 0x14, SAP_PROTOCOL_ID, Decode(buf).sapVersion & 0x0F];
    assert cleared == cleared[..4] + buf[4..6] + buf[6..20] + buf[20..28];
  }
}
