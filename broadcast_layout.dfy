/**
 * The broadcast object's field set and its three byte layouts: the wire
 * envelope, the plaintext that is encrypted, and the bytes that are signed.
 * Parsers for the two layouts that are ever read back (the envelope and the
 * decrypted plaintext) are the specification the decoding methods of
 * Obj.Broadcast are proved against.
 */
module BroadcastLayout {
  import opened Primitives
  import opened Stream
  import opened WireConstants

  /** Objects of this version and later carry a tag. */
  const TagBroadcastVersion: uint64 := 5

  type Hash = s: seq<uint8> | |s| == 32 witness seq(32, _ => 0)
  type PubKey = s: seq<uint8> | |s| == 64 witness seq(64, _ => 0)

  /** The header every object starts with. */
  datatype ObjectHeader = ObjectHeader(
    nonce: uint64,        // proof-of-work nonce
    expiration: int64,    // Unix seconds
    objectType: uint32,
    version: uint64,
    streamNumber: uint64)

  /** What travels in the clear: header, tag and ciphertext. */
  datatype Envelope = Envelope(header: ObjectHeader, tag: Option<Hash>, encrypted: seq<uint8>)

  /** What the ciphertext holds once decrypted. */
  datatype Plaintext = Plaintext(
    fromAddressVersion: uint64,
    fromStreamNumber: uint64,
    behavior: uint32,
    signingKey: PubKey,
    encryptionKey: PubKey,
    nonceTrials: uint64,
    extraBytes: uint64,
    encoding: uint64,
    message: Bytes,
    signature: Bytes)

  /** Every field a broadcast object can hold. */
  datatype BroadcastFields = BroadcastFields(envelope: Envelope, plaintext: Plaintext)

  /** A key that was never set: Go's nil key, written as 64 zero bytes. */
  const ZeroKey: PubKey := seq(64, _ => 0)

  /** The inner fields of a broadcast no one has filled in yet. */
  const ZeroPlaintext := Plaintext(0, 0, 0, ZeroKey, ZeroKey, 0, 0, 0, [], [])

  /** The tag is present exactly when the version calls for one. */
  predicate TagGated(env: Envelope) {
    env.tag.Some? <==> env.header.version >= TagBroadcastVersion
  }

  /** The encoders dereference the tag whenever the version calls for one. */
  predicate HasNeededTag(env: Envelope) {
    env.header.version >= TagBroadcastVersion ==> env.tag.Some?
  }

  /** The tag as it appears in the wire and signing layouts: omitted before version 5. */
  function TagBytes(env: Envelope): (r: seq<uint8>)
    requires HasNeededTag(env)
  {
    if env.header.version >= TagBroadcastVersion then env.tag.value else []
  }

  /** nonce:8 | expiration:8 | objectType:4 | version:varint | stream:varint */
  function ObjectHeaderBytes(h: ObjectHeader): seq<uint8> {
    Pow256Values();
    BigEndian(h.nonce, 8) + Int64Bytes(h.expiration) + BigEndian(h.objectType, 4)
      + VarIntBytes(h.version) + VarIntBytes(h.streamNumber)
  }

  /** The wire envelope: header, tag when version >= 5, then the ciphertext to the end. */
  function WireBytes(b: BroadcastFields): seq<uint8>
    requires HasNeededTag(b.envelope)
  {
    ObjectHeaderBytes(b.envelope.header) + TagBytes(b.envelope) + b.envelope.encrypted
  }

  /** The sending address's version and stream. */
  function AddressBytes(p: Plaintext): seq<uint8> {
    VarIntBytes(p.fromAddressVersion) + VarIntBytes(p.fromStreamNumber)
  }

  /** The sending address's behavior bitfield and its two public keys: 132 bytes. */
  function KeyBytes(p: Plaintext): (r: seq<uint8>)
    ensures |r| == 132
  {
    Pow256Values();
    BigEndian(p.behavior, 4) + p.signingKey + p.encryptionKey
  }

  /** The proof-of-work parameters the sender asks for, and the payload encoding. */
  function PowBytes(p: Plaintext): seq<uint8> {
    VarIntBytes(p.nonceTrials) + VarIntBytes(p.extraBytes) + VarIntBytes(p.encoding)
  }

  /**
   * The sender fields shared by the encryption and signing layouts:
   * address version, stream, behavior, the two keys, the proof-of-work
   * parameters and the payload encoding.
   */
  function SenderBytes(p: Plaintext): seq<uint8> {
    AddressBytes(p) + KeyBytes(p) + PowBytes(p)
  }

  /** A length-prefixed byte string. */
  function VarBytes(s: Bytes): seq<uint8> {
    VarIntBytes(|s|) + s
  }

  /** The plaintext that is encrypted: sender fields, message and signature. */
  function EncryptionBytes(b: BroadcastFields): seq<uint8> {
    var p := b.plaintext;
    SenderBytes(p) + VarBytes(p.message) + VarBytes(p.signature)
  }

  /**
   * The bytes the sender signs: expiration, object type, version, stream
   * and tag, then the sender fields and the message, with neither the
   * nonce nor the signature.
   */
  function SigningBytes(b: BroadcastFields): seq<uint8>
    requires HasNeededTag(b.envelope)
  {
    var h := b.envelope.header;
    Pow256Values();
    Int64Bytes(h.expiration) + BigEndian(h.objectType, 4)
      + VarIntBytes(h.version) + VarIntBytes(h.streamNumber) + TagBytes(b.envelope)
      + SenderBytes(b.plaintext) + VarBytes(b.plaintext.message)
  }

  /** Reads the object header from the start of s. */
  function ParseObjectHeader(s: seq<uint8>): (r: Result<Parsed<ObjectHeader>>)
    ensures r.Ok? ==> r.value.next <= |s|
  {
    Pow256Values();
    var nonce :- ReadFull(s, 0, 8);
    var expiration :- ReadFull(s, 8, 8);
    var objectType :- ReadFull(s, 16, 4);
    var version :- ReadVarInt(s, 20);
    var stream :- ReadVarInt(s, version.next);
    Ok(Parsed(ObjectHeader(FromBigEndian(nonce), Int64FromBytes(expiration),
                           FromBigEndian(objectType), version.val, stream.val),
              stream.next))
  }

  /** Reads the tag at pos when the version calls for one. */
  function ParseTag(s: seq<uint8>, pos: nat, version: uint64): (r: Result<Parsed<Option<Hash>>>)
    requires pos <= |s|
    ensures r.Ok? ==> r.value.next <= |s|
    ensures r.Ok? ==> (r.value.val.Some? <==> version >= TagBroadcastVersion)
  {
    if version >= TagBroadcastVersion then
      var tag :- ReadFull(s, pos, 32);
      Ok(Parsed(Some(tag), pos + 32))
    else Ok(Parsed(None, pos))
  }

  /**
   * Decodes a wire envelope: the header, the tag when the version calls
   * for one, a check of the object type, then every remaining byte as the
   * ciphertext.
   */
  function ParseWire(s: seq<uint8>): (r: Result<Envelope>)
    ensures r.Ok? ==> r.value.header.objectType == ObjectTypeBroadcast && TagGated(r.value)
    ensures r.Err? ==> IsReadError(r.error) || r.error == MessageError("Decode")
  {
    var h :- ParseObjectHeader(s);
    var tag :- ParseTag(s, h.next, h.val.version);
    if h.val.objectType != ObjectTypeBroadcast then Err(MessageError("Decode"))
    else Ok(Envelope(h.val, tag.val, s[tag.next..]))
  }

  /** Reads a length-prefixed byte string, refusing a declared length above the limit unread. */
  function ParseVarBytes(s: seq<uint8>, pos: nat): (r: Result<Parsed<Bytes>>)
    requires pos <= |s|
    ensures r.Ok? ==> r.value.next <= |s| && |r.value.val| <= MaxPayloadOfMsgObject
    ensures r.Err? ==> IsReadError(r.error) || r.error == MessageError("DecodeFromDecrypted")
  {
    var length :- ReadVarInt(s, pos);
    if length.val > MaxPayloadOfMsgObject then Err(MessageError("DecodeFromDecrypted"))
    else
      var bytes :- ReadFull(s, length.next, length.val);
      Ok(Parsed(bytes, length.next + length.val))
  }

  /** Reads the address version and stream at pos, in AddressBytes order. */
  function ParseAddress(s: seq<uint8>, pos: nat): (r: Result<Parsed<(uint64, uint64)>>)
    requires pos <= |s|
    ensures r.Ok? ==> pos < r.value.next <= |s|
    ensures r.Err? ==> IsReadError(r.error)
  {
    var addressVersion :- ReadVarInt(s, pos);
    var stream :- ReadVarInt(s, addressVersion.next);
    Ok(Parsed((addressVersion.val, stream.val), stream.next))
  }

  /** Reads the behavior bitfield and the two keys at pos, in KeyBytes order. */
  function ParseKeys(s: seq<uint8>, pos: nat): (r: Result<Parsed<(uint32, PubKey, PubKey)>>)
    requires pos <= |s|
    ensures r.Ok? ==> r.value.next == pos + 132 <= |s|
    ensures r.Err? ==> IsReadError(r.error)
  {
    Pow256Values();
    var behavior :- ReadFull(s, pos, 4);
    var signingKey :- ReadFull(s, pos + 4, 64);
    var encryptionKey :- ReadFull(s, pos + 68, 64);
    Ok(Parsed((FromBigEndian(behavior), signingKey, encryptionKey), pos + 132))
  }

  /** Reads the proof-of-work parameters and the encoding at pos, in PowBytes order. */
  function ParsePow(s: seq<uint8>, pos: nat): (r: Result<Parsed<(uint64, uint64, uint64)>>)
    requires pos <= |s|
    ensures r.Ok? ==> pos < r.value.next <= |s|
    ensures r.Err? ==> IsReadError(r.error)
  {
    var nonceTrials :- ReadVarInt(s, pos);
    var extraBytes :- ReadVarInt(s, nonceTrials.next);
    var encoding :- ReadVarInt(s, extraBytes.next);
    Ok(Parsed((nonceTrials.val, extraBytes.val, encoding.val), encoding.next))
  }

  /**
   * Reads the sender fields at the start of s, in SenderBytes order; the
   * message and signature of the result are still empty.
   */
  function ParseSender(s: seq<uint8>): (r: Result<Parsed<Plaintext>>)
    ensures r.Ok? ==> r.value.next <= |s|
    ensures r.Ok? ==> r.value.val.message == [] && r.value.val.signature == []
    ensures r.Err? ==> IsReadError(r.error)
  {
    var address :- ParseAddress(s, 0);
    var keys :- ParseKeys(s, address.next);
    var pow :- ParsePow(s, keys.next);
    Ok(Parsed(Plaintext(address.val.0, address.val.1, keys.val.0, keys.val.1, keys.val.2,
                        pow.val.0, pow.val.1, pow.val.2, [], []),
              pow.next))
  }

  /**
   * Decodes a decrypted plaintext into the inner fields: the sender
   * fields, then the message and the signature, each length checked
   * against the object payload limit before it is read. Bytes after the
   * signature are not read.
   */
  function ParsePlaintext(s: seq<uint8>): (r: Result<Plaintext>)
    ensures r.Ok? ==> |r.value.message| <= MaxPayloadOfMsgObject
    ensures r.Ok? ==> |r.value.signature| <= MaxPayloadOfMsgObject
    ensures r.Err? ==> IsReadError(r.error) || r.error == MessageError("DecodeFromDecrypted")
  {
    var sender :- ParseSender(s);
    var message :- ParseVarBytes(s, sender.next);
    var signature :- ParseVarBytes(s, message.next);
    Ok(sender.val.(message := message.val, signature := signature.val))
  }
}
