/**
 * The test vectors of the broadcast object: the objects the tests build,
 * the byte strings they expect, and the lemmas and client methods that
 * show the model produces and accepts exactly those bytes (and fails
 * where the tests expect a failure).
 */
module BroadcastVectors {
  import opened Primitives
  import opened Stream
  import opened WireConstants
  import opened BroadcastLayout
  import opened WireProperties
  import opened PlaintextProperties

  function Zeros(n: nat): (r: seq<uint8>)
    ensures |r| == n
  {
    seq(n, _ => 0)
  }

  const Nonce: uint64 := 83928
  const Expires: int64 := 0x495fab29

  /** The two public keys, as the encryption vector holds them. */
  const PubKey1: PubKey := Zeros(64)
  const PubKey2: PubKey := [1] + Zeros(63)

  const Tag: Hash := Zeros(32)

  /** A version-2 object with only a ciphertext. */
  const MsgBase := BroadcastFields(
    Envelope(ObjectHeader(Nonce, Expires, ObjectTypeBroadcast, 2, 1), None, Zeros(128)),
    ZeroPlaintext)

  /** A version-5 object with every field set, sent from a version-1 address. */
  const MsgTagged := BroadcastFields(
    Envelope(ObjectHeader(Nonce, Expires, ObjectTypeBroadcast, 5, 1), Some(Tag), Zeros(128)),
    Plaintext(1, 1, 1, PubKey1, PubKey2, 512, 512, 0, Zeros(32), Zeros(8)))

  /** What decoding the wire form of MsgTagged gives: the envelope only. */
  const MsgBaseAndTag := BroadcastFields(MsgTagged.envelope, ZeroPlaintext)

  /** A version-5 object with every field set, sent from a version-3 address. */
  const MsgTaggedV3 := BroadcastFields(
    MsgTagged.envelope,
    Plaintext(3, 1, 1, PubKey1, PubKey2, 512, 512, 0, Zeros(32), Zeros(8)))

  /** The nonce, expiration and object type fields of both wire vectors. */
  const NonceVector: seq<uint8> := [0x00, 0x00, 0x00, 0x00, 0x00, 0x01, 0x47, 0xd8]
  const ExpiresVector: seq<uint8> := [0x00, 0x00, 0x00, 0x00, 0x49, 0x5f, 0xab, 0x29]
  const ObjectTypeVector: seq<uint8> := [0x00, 0x00, 0x00, 0x03]

  /** The header bytes both wire vectors start with, minus the version and stream. */
  const HeaderPrefix: seq<uint8> := NonceVector + ExpiresVector + ObjectTypeVector

  /** The wire form of MsgBase. */
  const BaseBroadcastEncoded: seq<uint8> := HeaderPrefix + [0x02, 0x01] + Zeros(128)

  /** The wire form of MsgTagged: a version-5 header, a zero tag, the ciphertext. */
  const TagBroadcastEncoded: seq<uint8> := HeaderPrefix + [0x05, 0x01] + Zeros(32) + Zeros(128)

  /** The behavior bitfield and the two keys of MsgTaggedV3. */
  const KeyVector: seq<uint8> := [0x00, 0x00, 0x00, 0x01] + Zeros(64) + ([0x01] + Zeros(63))

  /** Nonce trials and extra bytes of 512 each, then encoding 0. */
  const PowVector: seq<uint8> := [0xfd, 0x02, 0x00] + [0xfd, 0x02, 0x00] + [0x00]

  /** The sender fields of MsgTaggedV3: the first 141 bytes of the encryption vector. */
  const SenderVector: seq<uint8> := [0x03] + [0x01] + KeyVector + PowVector

  /** The message of MsgTaggedV3 with its length. */
  const MessageVector: seq<uint8> := [0x20] + Zeros(32)

  /** The signature of MsgTaggedV3 with its length. */
  const SignatureVector: seq<uint8> := [0x08] + Zeros(8)

  /** The encryption plaintext of MsgTaggedV3. */
  const BroadcastEncodedForEncryption: seq<uint8> := SenderVector + MessageVector + SignatureVector

  /** The signed bytes of MsgTaggedV3. */
  const BroadcastEncodedForSigning: seq<uint8> :=
    ExpiresVector + ObjectTypeVector + [0x05] + [0x01] + Zeros(32) + SenderVector + MessageVector

  lemma NonceBytes()
    ensures BigEndian(Nonce, 8) == NonceVector
  {
    Pow256Values();
  }

  lemma ExpiresBytes()
    ensures Int64Bytes(Expires) == ExpiresVector
  {
    Pow256Values();
  }

  lemma ObjectTypeBytes()
    ensures BigEndian(ObjectTypeBroadcast, 4) == ObjectTypeVector
  {
    Pow256Values();
  }

  lemma HeaderBytesOfVectors(version: uint64)
    requires version < 0xfd
    ensures ObjectHeaderBytes(ObjectHeader(Nonce, Expires, ObjectTypeBroadcast, version, 1))
         == HeaderPrefix + [version, 0x01]
  {
    NonceBytes();
    ExpiresBytes();
    ObjectTypeBytes();
    assert VarIntBytes(version) == [version] && VarIntBytes(1) == [0x01];
    assert [version, 0x01] == [version] + [0x01];
  }

  lemma BaseBroadcastWire()
    ensures WireBytes(MsgBase) == BaseBroadcastEncoded
  {
    HeaderBytesOfVectors(2);
  }

  lemma TagBroadcastWire()
    ensures WireBytes(MsgTagged) == TagBroadcastEncoded
    ensures WireBytes(MsgBaseAndTag) == TagBroadcastEncoded
  {
    HeaderBytesOfVectors(5);
  }

  /** Decoding baseBroadcastEncoded gives back MsgBase's envelope. */
  lemma BaseBroadcastDecodes()
    ensures ParseWire(BaseBroadcastEncoded) == Ok(MsgBase.envelope)
  {
    BaseBroadcastWire();
    WireRoundTripExact(MsgBase);
  }

  /** Decoding tagBroadcastEncoded gives the envelope of MsgTagged, whose inner fields it does not hold. */
  lemma TagBroadcastDecodes()
    ensures ParseWire(TagBroadcastEncoded) == Ok(MsgBaseAndTag.envelope)
  {
    TagBroadcastWire();
    WireRoundTripExact(MsgBaseAndTag);
  }

  /**
   * The wire vectors cut where the nonce, expiration, object type,
   * version, stream number and tag start fail to decode with EOF.
   */
  lemma WireErrorVectors()
    ensures forall k :: k in {0, 8, 16, 20, 21} ==> ParseWire(BaseBroadcastEncoded[..k]) == Err(EOF)
    ensures ParseWire(TagBroadcastEncoded[..22]) == Err(EOF)
  {
    BaseBroadcastWire();
    TagBroadcastWire();
    assert |VarIntBytes(2)| == 1 && |VarIntBytes(5)| == 1 && |VarIntBytes(1)| == 1;
    assert WireFieldOffsets(MsgBase.envelope.header) == {0, 8, 16, 20, 21};
    forall k | k in {0, 8, 16, 20, 21}
      ensures ParseWire(BaseBroadcastEncoded[..k]) == Err(EOF)
    {
      WireTruncated(MsgBase, k);
    }
    assert 22 in WireFieldOffsets(MsgBaseAndTag.envelope.header);
    WireTruncated(MsgBaseAndTag, 22);
  }

  lemma KeyBytesOfVectors()
    ensures KeyBytes(MsgTaggedV3.plaintext) == KeyVector
  {
    Pow256Values();
    assert BigEndian(1, 4) == [0x00, 0x00, 0x00, 0x01];
  }

  lemma PowBytesOfVectors()
    ensures PowBytes(MsgTaggedV3.plaintext) == PowVector
  {
    Pow256Values();
    assert VarIntBytes(512) == [0xfd, 0x02, 0x00];
    assert VarIntBytes(0) == [0x00];
  }

  /** The sender fields of MsgTaggedV3. */
  lemma SenderBytesOfVectors()
    ensures SenderBytes(MsgTaggedV3.plaintext) == SenderVector
  {
    var p := MsgTaggedV3.plaintext;
    KeyBytesOfVectors();
    PowBytesOfVectors();
    assert VarIntBytes(3) == [0x03] && VarIntBytes(1) == [0x01];
  }

  lemma EncryptionVector()
    ensures EncryptionBytes(MsgTaggedV3) == BroadcastEncodedForEncryption
  {
    SenderBytesOfVectors();
  }

  lemma SigningVector()
    ensures SigningBytes(MsgTaggedV3) == BroadcastEncodedForSigning
  {
    ExpiresBytes();
    ObjectTypeBytes();
    SenderBytesOfVectors();
    assert VarIntBytes(5) == [0x05] && VarIntBytes(1) == [0x01];
  }

  /** Decoding the encryption vector gives back every inner field of MsgTaggedV3. */
  lemma EncryptionVectorDecodes()
    ensures ParsePlaintext(BroadcastEncodedForEncryption) == Ok(MsgTaggedV3.plaintext)
  {
    EncryptionVector();
    PlaintextRoundTrip(MsgTaggedV3, []);
    assert EncryptionBytes(MsgTaggedV3) + [] == EncryptionBytes(MsgTaggedV3);
  }

  /**
   * The 183-byte encryption vector: address version at 0, stream at 1,
   * behavior at 2, keys at 6 and 70, the proof-of-work varints at 134,
   * 137 and 140, the message length at 141, the message at 142, the
   * signature length at 174 and the signature at 175.
   */
  lemma EncryptionFieldVectors()
    ensures |BroadcastEncodedForEncryption| == 183
    ensures PlaintextFieldOffsets(MsgTaggedV3.plaintext)
         == {0, 1, 2, 6, 70, 134, 137, 140, 141, 142, 174, 175}
  {
    var p := MsgTaggedV3.plaintext;
    EncryptionVector();
    SenderBytesOfVectors();
    assert SenderFieldOffsets(p) == {0, 1, 2, 6, 70, 134, 137, 140} by {
      assert |VarIntBytes(3)| == 1 && |VarIntBytes(1)| == 1 && |AddressBytes(p)| == 2;
      assert |VarIntBytes(512)| == 3;
    }
    assert |SenderBytes(p)| == 141;
    assert VarBytesFieldOffsets(p.message, 141) == {141, 142};
    assert VarBytesFieldOffsets(p.signature, 174) == {174, 175};
  }

  /**
   * The encryption vector cut where the address version, the stream, the
   * three proof-of-work varints, the message length, the message, the
   * signature length and the signature start fails to decode with EOF;
   * cut inside the signing key, with a read error.
   */
  lemma EncryptionErrorVectors()
    ensures forall k :: k in {0, 1, 134, 137, 140, 141, 142, 174, 175} ==>
      ParsePlaintext(BroadcastEncodedForEncryption[..k]) == Err(EOF)
    ensures ParsePlaintext(BroadcastEncodedForEncryption[..8]).Err?
    ensures IsReadError(ParsePlaintext(BroadcastEncodedForEncryption[..8]).error)
  {
    EncryptionVector();
    EncryptionFieldVectors();
    forall k | k in {0, 1, 134, 137, 140, 141, 142, 174, 175}
      ensures ParsePlaintext(BroadcastEncodedForEncryption[..k]) == Err(EOF)
    {
      PlaintextTruncated(MsgTaggedV3, k);
    }
    PlaintextTruncated(MsgTaggedV3, 8);
  }

  /** The length the mutated vectors declare: the eight bytes c8 c8 00 00 00 00 00 00. */
  const OversizedLength: uint64 := 0xc8c8_0000_0000_0000

  lemma OversizedLengthBytes()
    ensures VarIntBytes(OversizedLength) == [0xff, 200, 200, 0, 0, 0, 0, 0, 0]
  {
    Pow256Values();
  }

  /** The encryption vector with the message length overwritten by ff c8 c8. */
  const OversizedMessageVector: seq<uint8> :=
    BroadcastEncodedForEncryption[141 := 0xff][142 := 200][143 := 200]

  /** The encryption vector with the signature length overwritten by ff c8 c8. */
  const OversizedSignatureVector: seq<uint8> :=
    BroadcastEncodedForEncryption[174 := 0xff][175 := 200][176 := 200]

  /**
   * Overwriting the three bytes after a with ff c8 c8, where six zero
   * bytes follow them, leaves a, then the varint of OversizedLength, then
   * the rest.
   */
  lemma OverwriteWithOversizedLength(a: seq<uint8>, t: seq<uint8>)
    requires |t| >= 9 && t[3..9] == Zeros(6)
    ensures (a + t)[|a| := 0xff][|a| + 1 := 200][|a| + 2 := 200]
         == a + VarIntBytes(OversizedLength) + t[9..]
  {
    OversizedLengthBytes();
    var u := (a + t)[|a| := 0xff][|a| + 1 := 200][|a| + 2 := 200];
    var v := a + VarIntBytes(OversizedLength) + t[9..];
    assert |u| == |v|;
    forall i | 0 <= i < |u|
      ensures u[i] == v[i]
    {
      if |a| + 3 <= i < |a| + 9 {
        assert t[i - |a|] == t[3..9][i - |a| - 3];
      }
    }
  }

  /** A message length above the payload limit is refused. */
  lemma OversizedMessageRefused()
    ensures ParsePlaintext(OversizedMessageVector) == Err(MessageError("DecodeFromDecrypted"))
  {
    var p := MsgTaggedV3.plaintext;
    SenderBytesOfVectors();
    var t := MessageVector + SignatureVector;
    assert BroadcastEncodedForEncryption == SenderVector + t;
    assert t[3..9] == Zeros(6);
    OverwriteWithOversizedLength(SenderVector, t);
    PlaintextOversizedMessage(p, OversizedLength, t[9..]);
  }

  /** A signature length above the payload limit is refused. */
  lemma OversizedSignatureRefused()
    ensures ParsePlaintext(OversizedSignatureVector) == Err(MessageError("DecodeFromDecrypted"))
  {
    var p := MsgTaggedV3.plaintext;
    SenderBytesOfVectors();
    assert SignatureVector[3..9] == Zeros(6);
    OverwriteWithOversizedLength(SenderVector + MessageVector, SignatureVector);
    assert SignatureVector[9..] == [];
    PlaintextOversizedSignature(p, OversizedLength, []);
  }
}
