/**
 * The broadcast object itself: a receiver whose fields the decoders fill
 * in place and the encoders write to a sink. Each method is proved
 * against the layout functions and parsers of BroadcastLayout.
 */
module Obj {
  import opened Primitives
  import opened Stream
  import opened WireConstants
  import opened BroadcastLayout

  /** The largest payload a broadcast may have, whatever its fields. */
  function MaxPayloadLength(): (n: nat)
    ensures n == MaxPayloadOfMsgObject
  {
    MaxPayloadOfMsgObject
  }

  /** The message and signature a decrypted plaintext yields both fit within MaxPayloadLength. */
  lemma DecodedWithinMaxPayload(s: seq<uint8>)
    ensures ParsePlaintext(s).Ok? ==> |ParsePlaintext(s).value.message| <= MaxPayloadLength()
    ensures ParsePlaintext(s).Ok? ==> |ParsePlaintext(s).value.signature| <= MaxPayloadLength()
  {
  }

  class Broadcast {
    var header: ObjectHeader
    var tag: Option<Hash>
    var encrypted: seq<uint8>
    var fromAddressVersion: uint64
    var fromStreamNumber: uint64
    var behavior: uint32
    var signingKey: PubKey
    var encryptionKey: PubKey
    var nonceTrials: uint64
    var extraBytes: uint64
    var encoding: uint64
    var message: Bytes
    var signature: Bytes

    /** The fields that travel in the clear. */
    function Outer(): Envelope
      reads this`header, this`tag, this`encrypted
    {
      Envelope(header, tag, encrypted)
    }

    /** The fields the ciphertext holds. */
    function Inner(): Plaintext
      reads this`fromAddressVersion, this`fromStreamNumber, this`behavior, this`signingKey,
            this`encryptionKey, this`nonceTrials, this`extraBytes, this`encoding, this`message,
            this`signature
    {
      Plaintext(fromAddressVersion, fromStreamNumber, behavior, signingKey, encryptionKey,
                nonceTrials, extraBytes, encoding, message, signature)
    }

    /** Every field of the object, as one value. */
    function Fields(): BroadcastFields
      reads this
    {
      BroadcastFields(Outer(), Inner())
    }

    /** The zero value of the object, as `var msg obj.Broadcast` declares it. */
    constructor Zero()
      ensures Fields() == BroadcastFields(Envelope(ObjectHeader(0, 0, 0, 0, 0), None, []), ZeroPlaintext)
    {
      header := ObjectHeader(0, 0, 0, 0, 0);
      tag := None;
      encrypted := [];
      fromAddressVersion, fromStreamNumber, behavior := 0, 0, 0;
      signingKey, encryptionKey := ZeroKey, ZeroKey;
      nonceTrials, extraBytes, encoding := 0, 0, 0;
      message, signature := [], [];
    }

    /** NewBroadcast: every field given, the object type set to that of a broadcast. */
    constructor (nonce: uint64, expiration: int64, version: uint64, streamNumber: uint64,
                 tag: Option<Hash>, encrypted: seq<uint8>,
                 fromAddressVersion: uint64, fromStreamNumber: uint64, behavior: uint32,
                 signingKey: PubKey, encryptionKey: PubKey,
                 nonceTrials: uint64, extraBytes: uint64, encoding: uint64,
                 message: Bytes, signature: Bytes)
      ensures Fields() == BroadcastFields(
        Envelope(ObjectHeader(nonce, expiration, ObjectTypeBroadcast, version, streamNumber), tag, encrypted),
        Plaintext(fromAddressVersion, fromStreamNumber, behavior, signingKey, encryptionKey,
                  nonceTrials, extraBytes, encoding, message, signature))
    {
      this.header := ObjectHeader(nonce, expiration, ObjectTypeBroadcast, version, streamNumber);
      this.tag := tag;
      this.encrypted := encrypted;
      this.fromAddressVersion := fromAddressVersion;
      this.fromStreamNumber := fromStreamNumber;
      this.behavior := behavior;
      this.signingKey := signingKey;
      this.encryptionKey := encryptionKey;
      this.nonceTrials := nonceTrials;
      this.extraBytes := extraBytes;
      this.encoding := encoding;
      this.message := message;
      this.signature := signature;
    }

    /** The object header: the fields the wire form starts with. */
    function Header(): (h: ObjectHeader)
      reads this
      ensures h == Outer().header
      ensures HasNeededTag(Outer()) ==> WireBytes(Fields())[..|ObjectHeaderBytes(h)|] == ObjectHeaderBytes(h)
    {
      header
    }

    /** Replaces the object header and nothing else. */
    method SetHeader(h: ObjectHeader)
      modifies this
      ensures Outer() == old(Outer()).(header := h) && Inner() == old(Inner())
    {
      header := h;
    }

    /**
     * Decodes a wire envelope from input: the header, the tag when the
     * version calls for one, a check of the object type, then the rest of
     * the input as the ciphertext. On success only the header, tag and
     * ciphertext change; on failure nothing does.
     */
    method Decode(input: seq<uint8>) returns (err: Option<Error>)
      modifies this
      ensures Inner() == old(Inner())
      ensures ParseWire(input).Ok? ==> err == None && Outer() == ParseWire(input).value
      ensures ParseWire(input).Err? ==> err == Some(ParseWire(input).error) && Outer() == old(Outer())
    {
      Pow256Values();
      var nonce := ReadFull(input, 0, 8);
      if nonce.Err? { return Some(nonce.error); }
      var expiration := ReadFull(input, 8, 8);
      if expiration.Err? { return Some(expiration.error); }
      var objectType := ReadFull(input, 16, 4);
      if objectType.Err? { return Some(objectType.error); }
      var version := ReadVarInt(input, 20);
      if version.Err? { return Some(version.error); }
      var stream := ReadVarInt(input, version.value.next);
      if stream.Err? { return Some(stream.error); }
      var h := ObjectHeader(FromBigEndian(nonce.value), Int64FromBytes(expiration.value),
                            FromBigEndian(objectType.value), version.value.val, stream.value.val);
      var pos := stream.value.next;
      var t: Option<Hash> := None;
      if h.version >= TagBroadcastVersion {
        var tagBytes := ReadFull(input, pos, 32);
        if tagBytes.Err? { return Some(tagBytes.error); }
        t := Some(tagBytes.value);
        pos := pos + 32;
      }
      if h.objectType != ObjectTypeBroadcast {
        return Some(MessageError("Decode"));
      }
      header := h;
      tag := t;
      encrypted := input[pos..];
      err := None;
    }

    /**
     * Decodes a decrypted plaintext from input into the inner fields:
     * sender fields, then message and signature, each length checked
     * against the payload limit before the bytes are read. On success only
     * the inner fields change; on failure nothing does.
     */
    method DecodeFromDecrypted(input: seq<uint8>) returns (err: Option<Error>)
      modifies this
      ensures Outer() == old(Outer())
      ensures ParsePlaintext(input).Ok? ==> err == None && Inner() == ParsePlaintext(input).value
      ensures ParsePlaintext(input).Err? ==> err == Some(ParsePlaintext(input).error) && Inner() == old(Inner())
    {
      var address := ParseAddress(input, 0);
      if address.Err? { return Some(address.error); }
      var keys := ParseKeys(input, address.value.next);
      if keys.Err? { return Some(keys.error); }
      var pow := ParsePow(input, keys.value.next);
      if pow.Err? { return Some(pow.error); }
      assert ParseSender(input).Ok?;
      var msg := ParseVarBytes(input, pow.value.next);
      if msg.Err? { return Some(msg.error); }
      var sig := ParseVarBytes(input, msg.value.next);
      if sig.Err? { return Some(sig.error); }
      SetPlaintext(Plaintext(address.value.val.0, address.value.val.1,
                             keys.value.val.0, keys.value.val.1, keys.value.val.2,
                             pow.value.val.0, pow.value.val.1, pow.value.val.2,
                             msg.value.val, sig.value.val));
      err := None;
    }

    /** Replaces the inner fields and nothing else. */
    method SetPlaintext(p: Plaintext)
      modifies this
      ensures Inner() == p
      ensures unchanged(this`header, this`tag, this`encrypted)
    {
      fromAddressVersion := p.fromAddressVersion;
      fromStreamNumber := p.fromStreamNumber;
      behavior := p.behavior;
      signingKey := p.signingKey;
      encryptionKey := p.encryptionKey;
      nonceTrials := p.nonceTrials;
      extraBytes := p.extraBytes;
      encoding := p.encoding;
      message := p.message;
      signature := p.signature;
    }

    /** Writes the wire envelope to w. */
    method Encode(w: Sink) returns (err: Option<Error>)
      requires HasNeededTag(Fields().envelope)
      modifies w
      ensures Wrote(w, WireBytes(Fields()), err)
      ensures err.Some? ==> w.data == old(w.data)
    {
      err := w.Write(WireBytes(Fields()));
    }

    /** Writes the encryption plaintext to w. */
    method EncodeForEncryption(w: Sink) returns (err: Option<Error>)
      modifies w
      ensures Wrote(w, EncryptionBytes(Fields()), err)
      ensures err.Some? ==> w.data == old(w.data)
    {
      err := w.Write(EncryptionBytes(Fields()));
    }

    /** Writes the bytes the sender signs to w. */
    method EncodeForSigning(w: Sink) returns (err: Option<Error>)
      requires HasNeededTag(Fields().envelope)
      modifies w
      ensures Wrote(w, SigningBytes(Fields()), err)
      ensures err.Some? ==> w.data == old(w.data)
    {
      err := w.Write(SigningBytes(Fields()));
    }
  }
}
