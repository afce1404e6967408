/**
 * What the wire envelope promises: decoding undoes encoding, the object
 * type is checked, a tag is on the wire exactly from version 5 on, and an
 * envelope cut off before its ciphertext fails with a read error (EOF
 * when cut where a field starts).
 */
module WireProperties {
  import opened Primitives
  import opened Stream
  import opened WireConstants
  import opened BroadcastLayout

  /** The header parser, on a source whose fields are already known piece by piece. */
  lemma ParseObjectHeaderAt(s: seq<uint8>, h: ObjectHeader)
    requires |s| >= 20
    requires FromBigEndian(s[0..8]) == h.nonce
    requires Int64FromBytes(s[8..16]) == h.expiration
    requires FromBigEndian(s[16..20]) == h.objectType
    requires HoldsAt(s, 20, VarIntBytes(h.version))
    requires HoldsAt(s, 20 + |VarIntBytes(h.version)|, VarIntBytes(h.streamNumber))
    ensures ParseObjectHeader(s)
         == Ok(Parsed(h, 20 + |VarIntBytes(h.version)| + |VarIntBytes(h.streamNumber)|))
  {
    ReadVarIntOfVarIntBytes(s, 20, h.version);
    ReadVarIntOfVarIntBytes(s, 20 + |VarIntBytes(h.version)|, h.streamNumber);
  }

  /** Where the fields of an object header lie in a source that holds it at its start. */
  lemma ObjectHeaderPieces(s: seq<uint8>, h: ObjectHeader)
    requires HoldsAt(s, 0, ObjectHeaderBytes(h))
    ensures |ObjectHeaderBytes(h)| == 20 + |VarIntBytes(h.version)| + |VarIntBytes(h.streamNumber)|
    ensures |s| >= 20
    ensures FromBigEndian(s[0..8]) == h.nonce
    ensures Int64FromBytes(s[8..16]) == h.expiration
    ensures FromBigEndian(s[16..20]) == h.objectType
    ensures HoldsAt(s, 20, VarIntBytes(h.version))
    ensures HoldsAt(s, 20 + |VarIntBytes(h.version)|, VarIntBytes(h.streamNumber))
  {
    Pow256Values();
    var nonce, expiration, objectType := BigEndian(h.nonce, 8), Int64Bytes(h.expiration), BigEndian(h.objectType, 4);
    var version, stream := VarIntBytes(h.version), VarIntBytes(h.streamNumber);
    HoldsAtSplit(s, 0, nonce + expiration + objectType + version, stream);
    HoldsAtSplit(s, 0, nonce + expiration + objectType, version);
    HoldsAtSplit(s, 0, nonce + expiration, objectType);
    HoldsAtSplit(s, 0, nonce, expiration);
    FromBigEndianOfBigEndian(h.nonce, 8);
    FromBigEndianOfBigEndian(h.objectType, 4);
    Int64RoundTrip(h.expiration);
  }

  /** Reading the object header where it was written gives it back. */
  lemma ObjectHeaderRoundTrip(s: seq<uint8>, h: ObjectHeader)
    requires HoldsAt(s, 0, ObjectHeaderBytes(h))
    ensures ParseObjectHeader(s) == Ok(Parsed(h, |ObjectHeaderBytes(h)|))
  {
    ObjectHeaderPieces(s, h);
    ParseObjectHeaderAt(s, h);
  }

  /** Where each field of the object header starts. */
  function HeaderFieldOffsets(h: ObjectHeader): set<nat> {
    {0, 8, 16, 20, 20 + |VarIntBytes(h.version)|}
  }

  /**
   * A source cut off inside the object header fails to parse with a read
   * error, and with EOF when cut where a header field starts.
   */
  lemma ObjectHeaderTruncated(s: seq<uint8>, h: ObjectHeader, k: nat)
    requires HoldsAt(s, 0, ObjectHeaderBytes(h))
    requires k < |ObjectHeaderBytes(h)|
    ensures ParseObjectHeader(s[..k]).Err?
    ensures k in HeaderFieldOffsets(h) ==> ParseObjectHeader(s[..k]) == Err(EOF)
  {
    ObjectHeaderPieces(s, h);
    var v := |VarIntBytes(h.version)|;
    if k < 20 {
    } else if k < 20 + v {
      ReadVarIntTruncated(s, 20, h.version, k);
    } else {
      ReadVarIntBeforeCut(s, 20, h.version, k);
      ReadVarIntTruncated(s, 20 + v, h.streamNumber, k);
    }
  }

  /** Reading the tag where it was written gives it back when the version calls for one. */
  lemma TagRoundTrip(s: seq<uint8>, pos: nat, env: Envelope)
    requires HasNeededTag(env)
    requires HoldsAt(s, pos, TagBytes(env))
    ensures ParseTag(s, pos, env.header.version)
         == Ok(Parsed(if env.header.version >= TagBroadcastVersion then env.tag else None,
                      pos + |TagBytes(env)|))
  {
  }

  /** The object header and the tag at the front of the wire form. */
  lemma WirePieces(b: BroadcastFields)
    requires HasNeededTag(b.envelope)
    ensures HoldsAt(WireBytes(b), 0, ObjectHeaderBytes(b.envelope.header))
    ensures HoldsAt(WireBytes(b), |ObjectHeaderBytes(b.envelope.header)|, TagBytes(b.envelope))
    ensures WireBytes(b)[|ObjectHeaderBytes(b.envelope.header)| + |TagBytes(b.envelope)|..]
         == b.envelope.encrypted
  {
    var env := b.envelope;
    var head, tag := ObjectHeaderBytes(env.header), TagBytes(env);
    HoldsAtPrefix(head + tag, env.encrypted);
    HoldsAtSplit(WireBytes(b), 0, head, tag);
    DropPrefix(head + tag, env.encrypted);
  }

  /**
   * Decoding the wire form of an object gives back its header and
   * ciphertext, and its tag when the version calls for one; a tag on an
   * object before version 5 is not on the wire and does not come back.
   */
  lemma WireRoundTrip(b: BroadcastFields)
    requires HasNeededTag(b.envelope)
    requires b.envelope.header.objectType == ObjectTypeBroadcast
    ensures ParseWire(WireBytes(b))
         == Ok(b.envelope.(tag := if b.envelope.header.version >= TagBroadcastVersion
                                   then b.envelope.tag else None))
  {
    var s := WireBytes(b);
    WirePieces(b);
    ObjectHeaderRoundTrip(s, b.envelope.header);
    TagRoundTrip(s, |ObjectHeaderBytes(b.envelope.header)|, b.envelope);
  }

  /** For an object whose tag matches its version, the wire round trip is exact. */
  lemma WireRoundTripExact(b: BroadcastFields)
    requires TagGated(b.envelope)
    requires b.envelope.header.objectType == ObjectTypeBroadcast
    ensures ParseWire(WireBytes(b)) == Ok(b.envelope)
  {
    WireRoundTrip(b);
  }

  /**
   * Before version 5 the tag is not written: two objects that differ only
   * in their tag have the same wire form.
   */
  lemma WireOmitsTagBeforeVersion5(b: BroadcastFields, tag: Option<Hash>)
    requires b.envelope.header.version < TagBroadcastVersion
    ensures WireBytes(b.(envelope := b.envelope.(tag := tag))) == WireBytes(b)
  {
  }

  /** A well-formed envelope of any other object type is refused with a MessageError. */
  lemma WireWrongObjectType(b: BroadcastFields)
    requires HasNeededTag(b.envelope)
    requires b.envelope.header.objectType != ObjectTypeBroadcast
    ensures ParseWire(WireBytes(b)) == Err(MessageError("Decode"))
  {
    var s := WireBytes(b);
    WirePieces(b);
    ObjectHeaderRoundTrip(s, b.envelope.header);
    TagRoundTrip(s, |ObjectHeaderBytes(b.envelope.header)|, b.envelope);
  }

  /** Where each field of the wire envelope up to the ciphertext starts. */
  function WireFieldOffsets(h: ObjectHeader): set<nat> {
    HeaderFieldOffsets(h)
      + if h.version >= TagBroadcastVersion
        then {20 + |VarIntBytes(h.version)| + |VarIntBytes(h.streamNumber)|} else {}
  }

  /**
   * Cutting the wire form anywhere before the ciphertext makes decoding
   * fail with a read error, and cutting it where a field starts makes it
   * fail with EOF.
   */
  lemma WireTruncated(b: BroadcastFields, k: nat)
    requires HasNeededTag(b.envelope)
    requires k < |ObjectHeaderBytes(b.envelope.header)| + |TagBytes(b.envelope)|
    ensures ParseWire(WireBytes(b)[..k]).Err?
    ensures IsReadError(ParseWire(WireBytes(b)[..k]).error)
    ensures k in WireFieldOffsets(b.envelope.header) ==> ParseWire(WireBytes(b)[..k]) == Err(EOF)
  {
    var h := b.envelope.header;
    var s := WireBytes(b);
    var n := |ObjectHeaderBytes(h)|;
    WirePieces(b);
    ObjectHeaderPieces(s, h);
    if k < n {
      ObjectHeaderTruncated(s, h, k);
    } else {
      HoldsAtCut(s, 0, ObjectHeaderBytes(h), k);
      ObjectHeaderRoundTrip(s[..k], h);
    }
  }
}
