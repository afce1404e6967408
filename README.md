# Bitmessage object codecs in Dafny

This project models three byte codecs of the Bitmessage utility library bmutil and proves what each one promises.

- **The broadcast object** (`obj.Broadcast`) has one set of fields and three byte layouts:
  - the *wire envelope* is the object header (nonce, expiration, object type, version, stream), then a 32-byte tag from version 5 on, then the ciphertext running to the end of input;
  - the *encryption plaintext* is the sender's address version, stream, behavior bitfield, two 64-byte public keys, the proof-of-work parameters, the payload encoding, then a length-prefixed message and signature;
  - the *signing bytes* are the header without its nonce, then the plaintext without its signature.

  The decoders fill a receiver in place. The encoders write to a sink: either a growing buffer or a fixed-capacity writer that refuses a write it cannot hold with a short-write error. The behaviour modelled is the one pinned down by `wire/obj/broadcast_test.go`: its byte vectors, its round trips, and its error offsets.
- **The payload encoding** (`format/encoding.go`):
  - code 1 carries a plain body;
  - code 2 carries a subject and a body, rendered as `Subject:<subject>\nBody:<body>` and read back by the pattern `^Subject:(.*)\nBody:((?s).*)`;
  - on the wire an encoding is its varint code, the varint length of its message, then the message, with the length checked against the object payload limit before the body is read.
- **The getdata message** (`wire/msggetdata.go`) holds a bounded list of 32-byte inventory vectors:
  - an append refuses to go past `MaxInvPerMsg`;
  - the wire form is a varint count followed by the vectors;
  - the decoder checks the count before reading any vector.

Module layout:

| module | contents |
|---|---|
| `Primitives` | bytes, big-endian integers, the 64-bit signed timestamp and the compact varint (one byte below `0xfd`, otherwise `0xfd`/`0xfe`/`0xff` followed by 2/4/8 big-endian bytes) |
| `Stream` | reads with `io.ReadFull`'s error rule: `EOF` when the read starts at the end of input, `UnexpectedEOF` when the input ends partway; the `Sink` class |
| `WireConstants` | the protocol limits |
| `BroadcastLayout` | the broadcast field set, its three layout functions and the parsers of the two layouts that are read back |
| `WireProperties`, `PlaintextProperties`, `SigningProperties` | round trips, truncation errors and independence facts about those layouts |
| `Obj` | the `Broadcast` class, whose methods are proved against `BroadcastLayout` |
| `BroadcastVectors`, `BroadcastTests` | the test file's byte vectors and its scenarios, written as proved statements |
| `Format` | the payload encoding |
| `GetData` | the getdata message, as the `MsgGetData` class |

## Model

| member | source | states |
|---|---|---|
| Obj.MaxPayloadLength | wire/obj/broadcast_test.go:29-35 | the payload limit of a broadcast is `MaxPayloadOfMsgObject` |
| Obj.Broadcast.constructor | wire/obj/broadcast_test.go:50 | `NewBroadcast` sets every field from its arguments and the object type to that of a broadcast, 3 |
| Obj.DecodedWithinMaxPayload | wire/obj/broadcast_test.go:29-35 | every message and signature a decrypted plaintext yields fits within `MaxPayloadLength` |
| Obj.Broadcast.Header | wire/obj/broadcast_test.go:241 | the `Header()` getter gives the object header, which is exactly what the wire form starts with |
| Obj.Broadcast.Zero | wire/obj/broadcast_test.go:96 | a declared `Broadcast` has a zero header, no tag, no ciphertext and a zero plaintext |
| Obj.Broadcast.SetHeader | wire/obj/broadcast_test.go:241 | replaces the object header and nothing else |
| Obj.Broadcast.SetPlaintext | wire/obj/broadcast_test.go:240-243 | replaces every inner field and leaves header, tag and ciphertext unchanged |
| Obj.Broadcast.Decode | wire/obj/broadcast_test.go:95-107 | on success the envelope becomes the parsed one; on failure the error is the parser's and the envelope is unchanged; the inner fields are never touched |
| Obj.Broadcast.DecodeFromDecrypted | wire/obj/broadcast_test.go:231-249 | on success every inner field is the parsed one; on failure the error is the parser's and nothing changes; header, tag and ciphertext are never touched |
| Obj.Broadcast.Encode | wire/obj/broadcast_test.go:82-93 | writes exactly the wire envelope of the object's fields to the sink, or fails with a short write and leaves the sink as it was |
| Obj.Broadcast.EncodeForEncryption | wire/obj/broadcast_test.go:218-229 | writes exactly the encryption plaintext to the sink, or fails with a short write and leaves the sink as it was |
| Obj.Broadcast.EncodeForSigning | wire/obj/broadcast_test.go:370-381 | writes exactly the signing bytes to the sink, or fails with a short write and leaves the sink as it was |
| BroadcastLayout.ParseWire | wire/obj/broadcast_test.go:113-117 | a decoded envelope always has object type 3 and a tag exactly from version 5 on; a failure is a read error or a `MessageError` |
| BroadcastLayout.ParsePlaintext | wire/obj/broadcast_test.go:314-339 | a decoded message and signature are never longer than the payload limit; a failure is a read error or a `MessageError` |
| BroadcastLayout.ParseVarBytes | wire/obj/broadcast_test.go:314-323 | a declared length above the payload limit is refused before any byte of the string is read |
| WireProperties.WireRoundTrip | wire/obj/broadcast_test.go:68-107 | decoding an object's wire form gives back its header and ciphertext, and its tag when the version calls for one |
| WireProperties.WireRoundTripExact | wire/obj/broadcast_test.go:68-72 | for an object whose tag matches its version, the wire round trip is the identity |
| WireProperties.WireOmitsTagBeforeVersion5 | wire/obj/broadcast_test.go:438-460 | before version 5 the tag does not reach the wire |
| WireProperties.WireWrongObjectType | wire/obj/broadcast_test.go:115-117 | a well-formed envelope of any other object type fails with a `MessageError`, not a read error |
| WireProperties.ObjectHeaderRoundTrip | wire/obj/broadcast_test.go:439-443 | reading the object header where it was written gives it back |
| WireProperties.ObjectHeaderTruncated | wire/obj/broadcast_test.go:129-138 | an object header cut short fails to decode, with `EOF` when it is cut where a field starts |
| WireProperties.WireTruncated | wire/obj/broadcast_test.go:129-142 | a wire form cut anywhere before the ciphertext fails with a read error, and with `EOF` at each field boundary, the tag included |
| PlaintextProperties.AddressRoundTrip | wire/obj/broadcast_test.go:495 | the address version and stream read back where they were written |
| PlaintextProperties.KeysRoundTrip | wire/obj/broadcast_test.go:495-511 | the behavior and both keys read back where they were written |
| PlaintextProperties.PowRoundTrip | wire/obj/broadcast_test.go:511-512 | the proof-of-work parameters and the encoding read back where they were written |
| PlaintextProperties.SenderRoundTrip | wire/obj/broadcast_test.go:495-512 | the sender fields read back where they were written, with message and signature still empty |
| PlaintextProperties.ParseVarBytesOfVarBytes | wire/obj/broadcast_test.go:512-517 | a length-prefixed string within the limit reads back where it was written |
| PlaintextProperties.ParseVarBytesOversized | wire/obj/broadcast_test.go:316-323 | a length prefix above the limit is refused with a `MessageError` |
| PlaintextProperties.PlaintextRoundTrip | wire/obj/broadcast_test.go:219-249 | decoding the encryption plaintext of any object, followed by any bytes, restores every inner field |
| PlaintextProperties.PlaintextOversizedMessage | wire/obj/broadcast_test.go:314-323 | a message length above the limit is refused with a `MessageError`, whatever follows |
| PlaintextProperties.PlaintextOversizedSignature | wire/obj/broadcast_test.go:328-336 | a signature length above the limit is refused with a `MessageError`, whatever follows |
| PlaintextProperties.AddressTruncated | wire/obj/broadcast_test.go:272-275 | address fields cut short fail, with `EOF` at each field boundary |
| PlaintextProperties.KeysTruncated | wire/obj/broadcast_test.go:276-277 | behavior or keys cut short fail, with `EOF` where the behavior and each key start |
| PlaintextProperties.PowTruncated | wire/obj/broadcast_test.go:278-283 | proof-of-work fields cut short fail, with `EOF` at each field boundary |
| PlaintextProperties.SenderTruncated | wire/obj/broadcast_test.go:272-283 | sender fields cut short fail, with `EOF` at each field boundary |
| PlaintextProperties.VarBytesTruncated | wire/obj/broadcast_test.go:284-291 | a length-prefixed string cut short fails with a read error, with `EOF` at its length and, when it is not empty, at its first byte |
| PlaintextProperties.PlaintextTruncated | wire/obj/broadcast_test.go:272-311 | an encryption plaintext cut anywhere fails with a read error, and with `EOF` at each field boundary |
| SigningProperties.SigningLayout | wire/obj/broadcast_test.go:521-551 | the signing bytes are expiration, type, version, stream and tag, then exactly the encryption plaintext without its signature |
| SigningProperties.SigningIgnoresNonceCiphertextSignature | wire/obj/broadcast_test.go:372-381 | two objects that differ only in nonce, ciphertext or signature have the same signing bytes |
| SigningProperties.SenderBytesIgnoresPayload | wire/obj/broadcast_test.go:494-551 | the sender fields do not depend on message or signature |
| BroadcastVectors.HeaderBytesOfVectors | wire/obj/broadcast_test.go:439-443 | the header of the test objects is the 22-byte vector `00..01 47 d8 / 00..49 5f ab 29 / 00 00 00 03 / v / 01` |
| BroadcastVectors.BaseBroadcastWire | wire/obj/broadcast_test.go:48-50 | the version-2 object encodes to `baseBroadcastEncoded` |
| BroadcastVectors.TagBroadcastWire | wire/obj/broadcast_test.go:59-60 | both version-5 objects encode to `tagBroadcastEncoded` |
| BroadcastVectors.BaseBroadcastDecodes | wire/obj/broadcast_test.go:68-72 | `baseBroadcastEncoded` decodes to the envelope of the version-2 object |
| BroadcastVectors.TagBroadcastDecodes | wire/obj/broadcast_test.go:73-77 | `tagBroadcastEncoded` decodes to the envelope of `msgBaseAndTag` |
| BroadcastVectors.WireErrorVectors | wire/obj/broadcast_test.go:129-142 | the vectors cut at 0, 8, 16, 20 and 21 (and the tagged one at 22) decode to `EOF` |
| BroadcastVectors.EncryptionVector | wire/obj/broadcast_test.go:494-518 | the test object's encryption plaintext is `broadcastEncodedForEncryption` |
| BroadcastVectors.SigningVector | wire/obj/broadcast_test.go:521-551 | the test object's signing bytes are `broadcastEncodedForSigning` |
| BroadcastVectors.EncryptionVectorDecodes | wire/obj/broadcast_test.go:231-249 | `broadcastEncodedForEncryption` decodes to the test object's inner fields |
| BroadcastVectors.EncryptionFieldVectors | wire/obj/broadcast_test.go:272-291 | that vector is 183 bytes long, and its fields start at 0, 1, 2, 6, 70, 134, 137, 140, 141, 142, 174 and 175 |
| BroadcastVectors.EncryptionErrorVectors | wire/obj/broadcast_test.go:272-311 | cut at each offset the test file names, the vector fails to decode; with `EOF` everywhere except at 8, which lies inside the signing key |
| BroadcastVectors.OversizedLengthBytes | wire/obj/broadcast_test.go:316-318 | `ff c8 c8 00 00 00 00 00 00` is the varint of a length far above the limit |
| BroadcastVectors.OversizedMessageRefused | wire/obj/broadcast_test.go:314-323 | the vector with its message length overwritten is refused with a `MessageError` |
| BroadcastVectors.OversizedSignatureRefused | wire/obj/broadcast_test.go:328-336 | the vector with its signature length overwritten is refused with a `MessageError` |
| BroadcastTests.WireEncodeDecode | wire/obj/broadcast_test.go:81-108 | encoding into a buffer gives the wire form; decoding that into a fresh object gives back the envelope and leaves the inner fields zero |
| BroadcastTests.BaseBroadcastWireRoundTrip | wire/obj/broadcast_test.go:68-72 | the version-2 object encodes to its vector and decodes back to itself |
| BroadcastTests.TagBroadcastWireRoundTrip | wire/obj/broadcast_test.go:73-77 | `msgTagged` encodes to its vector and decodes to `msgBaseAndTag` |
| BroadcastTests.BroadcastWireError | wire/obj/broadcast_test.go:129-185 | at each of the test file's capacities, encoding fails with a short write and decoding the cut vector fails with `EOF` |
| BroadcastTests.EncryptEncode | wire/obj/broadcast_test.go:219-229 | encoding for encryption into a buffer gives the encryption plaintext |
| BroadcastTests.DecryptDecode | wire/obj/broadcast_test.go:231-243 | decoding a plaintext into a fresh object and copying the envelope in gives the parsed inner fields under that envelope |
| BroadcastTests.EncryptEncodeDecode | wire/obj/broadcast_test.go:216-250 | for any object within the limits, encrypt-encode, decrypt-decode and copy the envelope back gives the same object |
| BroadcastTests.BroadcastEncryptRoundTrip | wire/obj/broadcast_test.go:201-249 | the test object encodes to its vector and comes back equal to itself |
| BroadcastTests.EncryptIntoFixed | wire/obj/broadcast_test.go:297-298 | a fixed writer smaller than the plaintext makes the encoder fail with a short write |
| BroadcastTests.DecryptError | wire/obj/broadcast_test.go:305-307 | decoding input the parser refuses returns the parser's error |
| BroadcastTests.BroadcastEncryptError | wire/obj/broadcast_test.go:295-311 | at each capacity the test file names, encoding fails with a short write and decoding the cut vector fails with a read error (`EOF` except at 8) |
| BroadcastTests.BroadcastDecodeOversized | wire/obj/broadcast_test.go:314-339 | decoding either overwritten vector fails with a `MessageError` |
| BroadcastTests.BroadcastSigningBytes | wire/obj/broadcast_test.go:368-382 | encoding the test object for signing into a buffer gives `broadcastEncodedForSigning` |
| BroadcastTests.SignIntoFixed | wire/obj/broadcast_test.go:428-429 | a fixed writer smaller than the signing bytes makes the encoder fail with a short write |
| BroadcastTests.BroadcastSigningError | wire/obj/broadcast_test.go:399-434 | at each capacity `max + 46` the test file names, encoding for signing fails with a short write |
| Primitives.FromBigEndianOfBigEndian | wire/obj/broadcast_test.go:439-441 | reading a big-endian integer back gives the one written |
| Primitives.BigEndianOfFromBigEndian | wire/obj/broadcast_test.go:439-441 | writing a read big-endian integer back gives the same bytes |
| Primitives.Int64RoundTrip | wire/obj/broadcast_test.go:440 | the 64-bit timestamp reads back as written, negative values included |
| Primitives.VarIntBytes | wire/obj/broadcast_test.go:511-512 | a varint is 1 to 9 bytes, and 1 byte exactly below `0xfd` |
| Stream.ReadVarInt | format/encoding.go:149-155 | `ReadVarInt` consumes 1 to 9 bytes; every failure is a read error, and `EOF` when the input is already exhausted (also used at wire/msggetdata.go:39) |
| Stream.ReadVarIntOfVarIntBytes | wire/obj/broadcast_test.go:511-512 | a varint reads back as written, with the position after it |
| Stream.ReadVarIntTruncated | wire/obj/broadcast_test.go:284-289 | a varint cut short fails to read, with `EOF` when nothing of it is left |
| Stream.ReadFull | wire/obj/broadcast_test.go:129-142 | a read succeeds exactly when enough bytes remain; otherwise `EOF` at the end of input and `UnexpectedEOF` partway |
| Stream.Sink.Write | wire/obj/broadcast_test.go:148-149 | a write either appends the whole chunk within capacity or fails with a short write and changes nothing |
| Format.Encoding.Code | format/encoding.go:56-58 | Encoding1's code is 1 and Encoding2's is 2, and no other variant has either (lines 92-94) |
| Format.Encoding.Message | format/encoding.go:66-68 | Encoding1's message is its body verbatim; Encoding2's (lines 102-104) matches the pattern with its own subject and body exactly when the subject has no newline |
| Format.ReadEncoding2 | format/encoding.go:107-115 | a success is an Encoding2 whose subject and body match the pattern; every failure is "Invalid format" |
| Format.ReadEncoding2IsMatch | format/encoding.go:19 | readMessage succeeds with a subject and body exactly when the text matches the pattern with those groups |
| Format.Encoding2RoundTrip | format/encoding.go:102-115 | an Encoding2 whose subject has no newline reads back from its own message |
| Format.FirstNewline | format/encoding.go:19 | finds the first newline at or after a position, or none |
| Format.Read | format/encoding.go:128-143 | code 1 always succeeds; a success keeps its code and message; failures are "Invalid format" for code 2 and "Unsupported encoding" for any other code |
| Format.ReadOfMessage | format/encoding.go:66-74 | reading an encoding's own message under its own code gives it back exactly when it is an Encoding1 or its subject has no newline |
| Format.ParseEncoding | format/encoding.go:146-169 | a success carries a message within the payload limit; a failure is a read error, a `MessageError`, or "Invalid format" or "Unsupported encoding" from `Read` |
| Format.EncodingBytes | format/encoding.go:31-47 | the stream form starts with the code (a one-byte varint), ends with the message verbatim, and is at most 10 bytes longer than the message |
| Format.DecodeOfEncode | format/encoding.go:31-47 | decoding an encoding's wire form, followed by any bytes, gives back that encoding exactly when readMessage accepts its message |
| Format.ParseEncodingRefusesLength | format/encoding.go:156-161 | a declared length above the limit is refused with a `MessageError` before the body is read |
| Format.DecodeOversized | format/encoding.go:152-161 | any code followed by an oversized length is refused with a `MessageError`, whatever follows |
| Format.ParseEncodingFailsInCode | format/encoding.go:149-151 | a code read error is returned as is |
| Format.ParseEncodingFailsInLength | format/encoding.go:153-155 | a length read error is returned as is |
| Format.ParseEncodingFailsInMessage | format/encoding.go:162-166 | a short body read returns the read error |
| Format.DecodeTruncated | format/encoding.go:146-169 | an encoding cut short anywhere fails with a read error |
| Format.Decode | format/encoding.go:146-169 | the stepwise decoder returns what `ParseEncoding` promises, on every input |
| Format.Encode | format/encoding.go:31-47 | writes code, length and message in that order; on a failed write the sink holds exactly the fields written before it |
| GetData.ReadInvVect | wire/msggetdata.go:53 | a vector read succeeds exactly when 32 bytes remain, and then gives those bytes |
| GetData.InvListBytesSnoc | wire/msggetdata.go:78-83 | appending a vector appends its hash to the encoded list |
| GetData.DecodeOutcome | wire/msggetdata.go:38-61 | a decode that reports no error leaves at most `MaxInvPerMsg` vectors |
| GetData.MsgGetData.constructor | wire/msggetdata.go:103-107 | `NewMsgGetData` gives an empty list with the default size hint |
| GetData.MsgGetData.SizeHint | wire/msggetdata.go:119-128 | `NewMsgGetDataSizeHint` gives an empty list and caps the hint at `MaxInvPerMsg` |
| GetData.MsgGetData.MaxPayloadLength | wire/msggetdata.go:96-99 | the payload limit is `MaxVarIntSize + MaxInvPerMsg * 32`, whatever the list |
| GetData.MsgGetData.AddInvVect | wire/msggetdata.go:25-34 | a full list is refused with a `MessageError` and left unchanged; otherwise the vector is appended at the end |
| GetData.MsgGetData.Decode | wire/msggetdata.go:38-61 | the list and error after decoding are those of `DecodeOutcome`: an oversized count or a failed count read leaves the list alone; otherwise the list becomes the vectors read, in order, up to the first read error |
| GetData.MsgGetData.Encode | wire/msggetdata.go:65-86 | a list above `MaxInvPerMsg` is refused with a `MessageError` and nothing written; otherwise the count and each vector are written in order, stopping at the first failed write; after a failed write the sink holds either nothing new or the count followed by the whole vectors written before the failing one |
| GetData.ItemsAtInvListBytes | wire/msggetdata.go:50-58 | reading vectors where a list was encoded gives the list back |
| GetData.GetDataRoundTrip | wire/msggetdata.go:38-86 | decoding an encoded list, followed by any bytes and over any prior list, gives the list back with no error |
| GetData.DecodeRefusesCount | wire/msggetdata.go:44-48 | a count above `MaxInvPerMsg` is refused with a `MessageError`, the old list kept, whatever follows |
| GetData.GetDataTruncated | wire/msggetdata.go:39-56 | an encoded list cut short fails with a read error; cut inside the vectors, the list holds exactly the whole vectors before the cut |
| GetData.GetDataFitsMaxPayload | wire/msggetdata.go:94-99 | every encodable list fits the payload limit |
| GetData.GetDataWireRoundTrip | wire/msggetdata.go:38-86 | encoding a message into a buffer and decoding it into a fresh message gives the same list |

## Left out

- `wire/obj/broadcast.go` is not part of this model. The broadcast codec is reconstructed from its test file, so three choices are ours:
  - the decoder reads the tag before it checks the object type;
  - a nil tag or key is modelled as absent or as 64 zero bytes;
  - the ciphertext is everything after the header and tag.
- `baseMsgEncoded` and the helpers `obj.BaseBroadcast` and `obj.TaggedBroadcast` are not part of this model. The test objects of lines 50 and 59 stand in for them, and the wrong object type at line 117 is covered for every envelope by `WireProperties.WireWrongObjectType`.
- `pubKey1` and `pubKey2` are not part of this model. Their values are read off the vectors: all zeros, then `01` followed by zeros.
- The values of `MaxPayloadOfMsgObject` (262144), `MaxVarIntSize` (9), `maxInvVectPayload` (32) and `defaultInvListAlloc` (1000) are not shown in these files and are assumed. `MaxInvPerMsg` is 50000, from the comment at `wire/msggetdata.go:15`.
- Obj.Broadcast.Encode and Obj.Broadcast.EncodeForSigning: require an object of version 5 or later to have a tag. What the source does for a version-5 object with a nil tag is not visible in these files, so that case is excluded.
- The varint reader accepts a non-minimal encoding. The varint codec's source is not shown, so a canonical-form check is not modelled.
- Obj.Broadcast.Encode: written as one write of the whole layout, so after a short write the sink keeps none of it. A field-by-field writer would keep the fields before the failing one; that partial content is not modelled. The same holds for EncodeForEncryption and EncodeForSigning.
- Obj.Broadcast.Decode: on failure the envelope is left as it was, whereas a field-by-field decoder may have overwritten some fields. The same holds for DecodeFromDecrypted.
- The signing error cases of `wire/obj/broadcast_test.go:404-406` pass `max + 46` to `fixed.NewWriter` (line 428), so -40 and -10 give writers of 6 and 36 bytes; `BroadcastTests.BroadcastSigningError` uses exactly those capacities.
- `ToProtobuf`, `String` and `Command` are not modelled: they convert to generated protobuf types or produce text for display.
- The regex engine is not modelled. The single pattern of `format/encoding.go:19` is modelled as a prefix and first-newline split. Go strings are treated as byte sequences, with no UTF-8 handling.
- Format.ReadEncoding2: `readMessage` is modelled as a function returning the new value, not as a receiver update. In `Read` the receiver is always fresh, so "fields unchanged on failure" means no value comes back.
- Format.Encode: requires the message to be shorter than 2^64 bytes, because its length is written as a 64-bit varint.
- `time.Time` is modelled as a signed 64-bit count of Unix seconds.
- Hashing, `wire.NewShaHash`, signing and encryption are not modelled: the model only produces and consumes their byte layouts.
- `readInvVect` and `writeInvVect` are modelled as reading or writing exactly the 32 hash bytes. The list holds vector values, so aliasing through `*InvVect` pointers is not modelled.
- GetData.MsgGetData.SizeHint: the size hint is kept only as a constant, because preallocated capacity does not change behaviour.
- GetData.MsgGetData.Encode: the count varint is written in one write, like each vector. The varint writer's source is not part of this model, so a writer that accepted half a varint before failing is not modelled.
- Format.Encode: the code and length varints are each written in one write, for the same reason; a failed write therefore leaves whole fields only.
- `io.Reader` is modelled as an input sequence and a position. `bytes.Buffer` and `fixed.NewWriter` are modelled as the `Sink` class with no capacity or a fixed one.
