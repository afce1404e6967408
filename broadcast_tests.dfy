/**
 * The broadcast tests as client code: each method builds the objects a
 * test builds, drives the encoders and decoders of Obj.Broadcast, and
 * promises the outcome the test expects.
 */
module BroadcastTests {
  import opened Primitives
  import opened Stream
  import opened WireConstants
  import opened BroadcastLayout
  import opened WireProperties
  import opened PlaintextProperties
  import opened Obj
  import opened BroadcastVectors

  /**
   * The body of TestBroadcastWire for any object: encode it into a
   * buffer, then decode the bytes into a zero object. The decoded object
   * has the envelope back (with the tag only when the version calls for
   * one) and zero inner fields.
   */
  method WireEncodeDecode(msg: Broadcast) returns (encoded: seq<uint8>, decoded: BroadcastFields)
    requires HasNeededTag(msg.Fields().envelope)
    requires msg.Fields().envelope.header.objectType == ObjectTypeBroadcast
    ensures encoded == WireBytes(msg.Fields())
    ensures decoded.plaintext == ZeroPlaintext
    ensures decoded.envelope == msg.Fields().envelope.(tag := if msg.header.version >= TagBroadcastVersion
                                                              then msg.tag else None)
  {
    encoded := WireEncode(msg);
    WireRoundTrip(msg.Fields());
    decoded := WireDecode(encoded);
  }

  /** Encoding into a growing buffer gives the wire form. */
  method WireEncode(msg: Broadcast) returns (encoded: seq<uint8>)
    requires HasNeededTag(msg.Fields().envelope)
    ensures encoded == WireBytes(msg.Fields())
  {
    var buf := new Sink.Buffer();
    var err := msg.Encode(buf);
    encoded := buf.data;
    assert encoded == [] + WireBytes(msg.Fields());
  }

  /** Decoding a well-formed envelope into a zero object gives that envelope and zero inner fields. */
  method WireDecode(encoded: seq<uint8>) returns (decoded: BroadcastFields)
    requires ParseWire(encoded).Ok?
    ensures decoded == BroadcastFields(ParseWire(encoded).value, ZeroPlaintext)
  {
    var out := new Broadcast.Zero();
    var err := out.Decode(encoded);
    decoded := out.Fields();
  }

  /** TestBroadcastWire, first case: msgBase encodes to baseBroadcastEncoded and decodes to itself. */
  method BaseBroadcastWireRoundTrip() returns (encoded: seq<uint8>, decoded: BroadcastFields)
    ensures encoded == BaseBroadcastEncoded && decoded == MsgBase
  {
    var msg := new Broadcast(Nonce, Expires, 2, 1, None, Zeros(128),
                             0, 0, 0, ZeroKey, ZeroKey, 0, 0, 0, [], []);
    BaseBroadcastWire();
    encoded, decoded := WireEncodeDecode(msg);
  }

  /** TestBroadcastWire, second case: msgTagged encodes to tagBroadcastEncoded and decodes to msgBaseAndTag. */
  method TagBroadcastWireRoundTrip() returns (encoded: seq<uint8>, decoded: BroadcastFields)
    ensures encoded == TagBroadcastEncoded && decoded == MsgBaseAndTag
  {
    var msg := new Broadcast(Nonce, Expires, 5, 1, Some(Tag), Zeros(128),
                             1, 1, 1, PubKey1, PubKey2, 512, 512, 0, Zeros(32), Zeros(8));
    TagBroadcastWire();
    encoded, decoded := WireEncodeDecode(msg);
  }

  /**
   * TestBroadcastWireError: a fixed writer of max bytes refuses the
   * encoding, and decoding the first max bytes of the vector fails with EOF.
   */
  method BroadcastWireError(tagged: bool, max: nat) returns (writeErr: Option<Error>, readErr: Option<Error>)
    requires if tagged then max == 22 else max in {0, 8, 16, 20, 21}
    ensures writeErr == Some(ShortWrite)
    ensures readErr == Some(EOF)
  {
    var b := if tagged then MsgTagged else MsgBase;
    var vector := if tagged then TagBroadcastEncoded else BaseBroadcastEncoded;
    var h := b.envelope.header;
    var msg := new Broadcast(h.nonce, h.expiration, h.version, h.streamNumber, b.envelope.tag, b.envelope.encrypted,
                             b.plaintext.fromAddressVersion, b.plaintext.fromStreamNumber, b.plaintext.behavior,
                             b.plaintext.signingKey, b.plaintext.encryptionKey, b.plaintext.nonceTrials,
                             b.plaintext.extraBytes, b.plaintext.encoding, b.plaintext.message, b.plaintext.signature);
    BaseBroadcastWire();
    TagBroadcastWire();
    WireErrorVectors();
    var w := new Sink.Fixed(max);
    writeErr := msg.Encode(w);
    var out := new Broadcast.Zero();
    readErr := out.Decode(vector[..max]);
  }

  /** Encodes the plaintext of msg into a fresh buffer and returns the bytes. */
  method EncryptEncode(msg: Broadcast) returns (encoded: seq<uint8>)
    ensures encoded == EncryptionBytes(msg.Fields())
  {
    var buf := new Sink.Buffer();
    var err := msg.EncodeForEncryption(buf);
    encoded := buf.data;
    assert encoded == [] + EncryptionBytes(msg.Fields());
  }

  /**
   * Decodes a plaintext into a zero object, then sets the header, tag and
   * ciphertext, which the plaintext does not hold.
   */
  method DecryptDecode(encoded: seq<uint8>, env: Envelope) returns (decoded: BroadcastFields)
    requires ParsePlaintext(encoded).Ok?
    ensures decoded == BroadcastFields(env, ParsePlaintext(encoded).value)
  {
    var out := new Broadcast.Zero();
    var err := out.DecodeFromDecrypted(encoded);
    out.SetHeader(env.header);
    out.tag := env.tag;
    out.encrypted := env.encrypted;
    decoded := out.Fields();
  }

  /**
   * The body of TestBroadcastEncrypt for any object: encode its plaintext
   * into a buffer, decode the bytes into a zero object, then copy over the
   * header, tag and ciphertext. The result is the object itself.
   */
  method EncryptEncodeDecode(msg: Broadcast) returns (encoded: seq<uint8>, decoded: BroadcastFields)
    requires |msg.message| <= MaxPayloadOfMsgObject && |msg.signature| <= MaxPayloadOfMsgObject
    ensures encoded == EncryptionBytes(msg.Fields())
    ensures decoded == msg.Fields()
  {
    ghost var b := msg.Fields();
    var env := Envelope(msg.Header(), msg.tag, msg.encrypted);
    assert env == b.envelope;
    encoded := EncryptEncode(msg);
    assert encoded == EncryptionBytes(b) + [];
    PlaintextRoundTrip(b, []);
    decoded := DecryptDecode(encoded, env);
  }

  /** A new broadcast object holding the fields of MsgTaggedV3. */
  method NewMsgTaggedV3() returns (msg: Broadcast)
    ensures fresh(msg) && msg.Fields() == MsgTaggedV3
  {
    msg := new Broadcast(Nonce, Expires, 5, 1, Some(Tag), Zeros(128),
                         3, 1, 1, PubKey1, PubKey2, 512, 512, 0, Zeros(32), Zeros(8));
  }

  /** TestBroadcastEncrypt: msgTagged encodes to broadcastEncodedForEncryption and decodes to itself. */
  method BroadcastEncryptRoundTrip() returns (encoded: seq<uint8>, decoded: BroadcastFields)
    ensures encoded == BroadcastEncodedForEncryption && decoded == MsgTaggedV3
  {
    var msg := NewMsgTaggedV3();
    EncryptionVector();
    encoded, decoded := EncryptEncodeDecode(msg);
  }

  /** Encodes the plaintext of msg into a fixed writer of the given capacity. */
  method EncryptIntoFixed(msg: Broadcast, capacity: nat) returns (err: Option<Error>)
    ensures |EncryptionBytes(msg.Fields())| > capacity ==> err == Some(ShortWrite)
  {
    var w := new Sink.Fixed(capacity);
    err := msg.EncodeForEncryption(w);
  }

  /** Decodes a plaintext into a zero object, returning the decoder's error. */
  method DecryptError(input: seq<uint8>) returns (err: Option<Error>)
    ensures ParsePlaintext(input).Err? ==> err == Some(ParsePlaintext(input).error)
  {
    var out := new Broadcast.Zero();
    err := out.DecodeFromDecrypted(input);
  }

  /**
   * TestBroadcastEncryptError: a fixed writer of max bytes refuses the
   * plaintext, and decoding its first max bytes fails with a read error:
   * EOF where a field starts, which is every case but the cut inside the
   * signing key.
   */
  method BroadcastEncryptError(max: nat) returns (writeErr: Option<Error>, readErr: Option<Error>)
    requires max in {0, 1, 8, 134, 137, 140, 141, 142, 174, 175}
    ensures writeErr == Some(ShortWrite)
    ensures readErr.Some? && IsReadError(readErr.value)
    ensures max != 8 ==> readErr == Some(EOF)
  {
    var msg := NewMsgTaggedV3();
    EncryptionVector();
    EncryptionErrorVectors();
    assert max != 8 ==> ParsePlaintext(BroadcastEncodedForEncryption[..max]) == Err(EOF);
    writeErr := EncryptIntoFixed(msg, max);
    readErr := DecryptError(BroadcastEncodedForEncryption[..max]);
  }

  /** TestBroadcastEncryptError, last part: overlong message and signature lengths are refused. */
  method BroadcastDecodeOversized() returns (messageErr: Option<Error>, signatureErr: Option<Error>)
    ensures messageErr == Some(MessageError("DecodeFromDecrypted"))
    ensures signatureErr == Some(MessageError("DecodeFromDecrypted"))
  {
    OversizedMessageRefused();
    OversizedSignatureRefused();
    var msg := new Broadcast.Zero();
    messageErr := msg.DecodeFromDecrypted(OversizedMessageVector);
    signatureErr := msg.DecodeFromDecrypted(OversizedSignatureVector);
  }

  /** TestBroadcastEncodeForSigning: msgTagged's signed bytes are broadcastEncodedForSigning. */
  method BroadcastSigningBytes() returns (encoded: seq<uint8>)
    ensures encoded == BroadcastEncodedForSigning
  {
    var msg := NewMsgTaggedV3();
    SigningVector();
    var buf := new Sink.Buffer();
    var err := msg.EncodeForSigning(buf);
    encoded := buf.data;
  }

  /** TestBroadcastEncodeForSigningError: a fixed writer of max + 46 bytes refuses the signed bytes. */
  method BroadcastSigningError(max: int) returns (err: Option<Error>)
    requires max in {-40, -10, 0, 1, 8, 134, 137, 140, 141, 142}
    ensures err == Some(ShortWrite)
  {
    var msg := NewMsgTaggedV3();
    SigningVector();
    assert |BroadcastEncodedForSigning| == 220;
    err := SignIntoFixed(msg, max + 46);
  }

  /** Encodes the signed bytes of msg into a fixed writer of the given capacity. */
  method SignIntoFixed(msg: Broadcast, capacity: nat) returns (err: Option<Error>)
    requires HasNeededTag(msg.Fields().envelope)
    ensures |SigningBytes(msg.Fields())| > capacity ==> err == Some(ShortWrite)
  {
    var w := new Sink.Fixed(capacity);
    err := msg.EncodeForSigning(w);
  }
}
