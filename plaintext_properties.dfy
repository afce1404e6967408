/**
 * What the encryption plaintext promises: decoding undoes encoding
 * whatever follows, a declared message or signature length above the
 * object payload limit is refused before anything after it is read, and
 * a plaintext cut off anywhere fails with a read error (EOF when cut
 * where a field starts).
 */
module PlaintextProperties {
  import opened Primitives
  import opened Stream
  import opened WireConstants
  import opened BroadcastLayout

  // ---------------------------------------------------------------
  // The address stage: address version and stream.

  lemma AddressPieces(s: seq<uint8>, pos: nat, p: Plaintext)
    requires HoldsAt(s, pos, AddressBytes(p))
    ensures HoldsAt(s, pos, VarIntBytes(p.fromAddressVersion))
    ensures HoldsAt(s, pos + |VarIntBytes(p.fromAddressVersion)|, VarIntBytes(p.fromStreamNumber))
    ensures |AddressBytes(p)| == |VarIntBytes(p.fromAddressVersion)| + |VarIntBytes(p.fromStreamNumber)|
  {
    HoldsAtSplit(s, pos, VarIntBytes(p.fromAddressVersion), VarIntBytes(p.fromStreamNumber));
  }

  lemma AddressRoundTrip(s: seq<uint8>, pos: nat, p: Plaintext)
    requires HoldsAt(s, pos, AddressBytes(p))
    ensures ParseAddress(s, pos)
         == Ok(Parsed((p.fromAddressVersion, p.fromStreamNumber), pos + |AddressBytes(p)|))
  {
    AddressPieces(s, pos, p);
    ReadVarIntOfVarIntBytes(s, pos, p.fromAddressVersion);
    ReadVarIntOfVarIntBytes(s, pos + |VarIntBytes(p.fromAddressVersion)|, p.fromStreamNumber);
  }

  /** Where the address fields start, for an address written at pos. */
  function AddressFieldOffsets(p: Plaintext, pos: nat): set<nat> {
    {pos, pos + |VarIntBytes(p.fromAddressVersion)|}
  }

  lemma AddressTruncated(s: seq<uint8>, pos: nat, p: Plaintext, k: nat)
    requires HoldsAt(s, pos, AddressBytes(p))
    requires pos <= k < pos + |AddressBytes(p)|
    ensures ParseAddress(s[..k], pos).Err?
    ensures k in AddressFieldOffsets(p, pos) ==> ParseAddress(s[..k], pos) == Err(EOF)
  {
    AddressPieces(s, pos, p);
    var a := |VarIntBytes(p.fromAddressVersion)|;
    if k < pos + a {
      ReadVarIntTruncated(s, pos, p.fromAddressVersion, k);
    } else {
      ReadVarIntBeforeCut(s, pos, p.fromAddressVersion, k);
      ReadVarIntTruncated(s, pos + a, p.fromStreamNumber, k);
    }
  }

  // ---------------------------------------------------------------
  // The key stage: behavior and the two public keys.

  lemma KeysPieces(s: seq<uint8>, pos: nat, p: Plaintext)
    requires HoldsAt(s, pos, KeyBytes(p))
    ensures pos + 132 <= |s|
    ensures FromBigEndian(s[pos..pos + 4]) == p.behavior
    ensures s[pos + 4..pos + 68] == p.signingKey
    ensures s[pos + 68..pos + 132] == p.encryptionKey
  {
    Pow256Values();
    var a, b: seq<uint8>, c: seq<uint8> := BigEndian(p.behavior, 4), p.signingKey, p.encryptionKey;
    HoldsAtSplit(s, pos, a + b, c);
    HoldsAtSplit(s, pos, a, b);
    FromBigEndianOfBigEndian(p.behavior, 4);
  }

  lemma KeysRoundTrip(s: seq<uint8>, pos: nat, p: Plaintext)
    requires HoldsAt(s, pos, KeyBytes(p))
    ensures ParseKeys(s, pos) == Ok(Parsed((p.behavior, p.signingKey, p.encryptionKey), pos + 132))
  {
    KeysPieces(s, pos, p);
  }

  /** Where the behavior and the two keys start, for keys written at pos. */
  function KeyFieldOffsets(pos: nat): set<nat> {
    {pos, pos + 4, pos + 68}
  }

  lemma KeysTruncated(s: seq<uint8>, pos: nat, p: Plaintext, k: nat)
    requires HoldsAt(s, pos, KeyBytes(p))
    requires pos <= k < pos + 132
    ensures ParseKeys(s[..k], pos).Err?
    ensures k in KeyFieldOffsets(pos) ==> ParseKeys(s[..k], pos) == Err(EOF)
  {
  }

  // ---------------------------------------------------------------
  // The proof-of-work stage: nonce trials, extra bytes and encoding.

  lemma PowPieces(s: seq<uint8>, pos: nat, p: Plaintext)
    requires HoldsAt(s, pos, PowBytes(p))
    ensures HoldsAt(s, pos, VarIntBytes(p.nonceTrials))
    ensures HoldsAt(s, pos + |VarIntBytes(p.nonceTrials)|, VarIntBytes(p.extraBytes))
    ensures HoldsAt(s, pos + |VarIntBytes(p.nonceTrials)| + |VarIntBytes(p.extraBytes)|,
                    VarIntBytes(p.encoding))
    ensures |PowBytes(p)|
         == |VarIntBytes(p.nonceTrials)| + |VarIntBytes(p.extraBytes)| + |VarIntBytes(p.encoding)|
  {
    var a, b, c := VarIntBytes(p.nonceTrials), VarIntBytes(p.extraBytes), VarIntBytes(p.encoding);
    HoldsAtSplit(s, pos, a + b, c);
    HoldsAtSplit(s, pos, a, b);
  }

  lemma PowRoundTrip(s: seq<uint8>, pos: nat, p: Plaintext)
    requires HoldsAt(s, pos, PowBytes(p))
    ensures ParsePow(s, pos)
         == Ok(Parsed((p.nonceTrials, p.extraBytes, p.encoding), pos + |PowBytes(p)|))
  {
    PowPieces(s, pos, p);
    var a, b := |VarIntBytes(p.nonceTrials)|, |VarIntBytes(p.extraBytes)|;
    ReadVarIntOfVarIntBytes(s, pos, p.nonceTrials);
    ReadVarIntOfVarIntBytes(s, pos + a, p.extraBytes);
    ReadVarIntOfVarIntBytes(s, pos + a + b, p.encoding);
  }

  /** Where the proof-of-work fields and the encoding start, for fields written at pos. */
  function PowFieldOffsets(p: Plaintext, pos: nat): set<nat> {
    var a, b := |VarIntBytes(p.nonceTrials)|, |VarIntBytes(p.extraBytes)|;
    {pos, pos + a, pos + a + b}
  }

  lemma PowTruncated(s: seq<uint8>, pos: nat, p: Plaintext, k: nat)
    requires HoldsAt(s, pos, PowBytes(p))
    requires pos <= k < pos + |PowBytes(p)|
    ensures ParsePow(s[..k], pos).Err?
    ensures k in PowFieldOffsets(p, pos) ==> ParsePow(s[..k], pos) == Err(EOF)
  {
    PowPieces(s, pos, p);
    var a, b := |VarIntBytes(p.nonceTrials)|, |VarIntBytes(p.extraBytes)|;
    if k < pos + a {
      ReadVarIntTruncated(s, pos, p.nonceTrials, k);
    } else if k < pos + a + b {
      ReadVarIntBeforeCut(s, pos, p.nonceTrials, k);
      ReadVarIntTruncated(s, pos + a, p.extraBytes, k);
    } else {
      ReadVarIntBeforeCut(s, pos, p.nonceTrials, k);
      ReadVarIntBeforeCut(s, pos + a, p.extraBytes, k);
      ReadVarIntTruncated(s, pos + a + b, p.encoding, k);
    }
  }

  // ---------------------------------------------------------------
  // The sender fields: the three stages in a row.

  lemma SenderPieces(s: seq<uint8>, p: Plaintext)
    requires HoldsAt(s, 0, SenderBytes(p))
    ensures HoldsAt(s, 0, AddressBytes(p))
    ensures HoldsAt(s, |AddressBytes(p)|, KeyBytes(p))
    ensures HoldsAt(s, |AddressBytes(p)| + 132, PowBytes(p))
    ensures |SenderBytes(p)| == |AddressBytes(p)| + 132 + |PowBytes(p)|
  {
    var a, k, w := AddressBytes(p), KeyBytes(p), PowBytes(p);
    HoldsAtSplit(s, 0, a + k, w);
    HoldsAtSplit(s, 0, a, k);
  }

  /** The sender parser, given the outcome of each of its stages. */
  lemma ParseSenderAt(s: seq<uint8>, p: Plaintext, a: nat, n: nat)
    requires a + 132 <= |s|
    requires ParseAddress(s, 0) == Ok(Parsed((p.fromAddressVersion, p.fromStreamNumber), a))
    requires ParseKeys(s, a) == Ok(Parsed((p.behavior, p.signingKey, p.encryptionKey), a + 132))
    requires ParsePow(s, a + 132) == Ok(Parsed((p.nonceTrials, p.extraBytes, p.encoding), n))
    ensures ParseSender(s) == Ok(Parsed(p.(message := [], signature := []), n))
  {
  }

  /** Reading the sender fields where they were written gives them back. */
  lemma SenderRoundTrip(s: seq<uint8>, p: Plaintext)
    requires HoldsAt(s, 0, SenderBytes(p))
    ensures ParseSender(s) == Ok(Parsed(p.(message := [], signature := []), |SenderBytes(p)|))
  {
    SenderPieces(s, p);
    var a := |AddressBytes(p)|;
    AddressRoundTrip(s, 0, p);
    KeysRoundTrip(s, a, p);
    PowRoundTrip(s, a + 132, p);
    ParseSenderAt(s, p, a, |SenderBytes(p)|);
  }

  /** The sender parser fails as its address stage does. */
  lemma SenderFailsInAddress(t: seq<uint8>)
    requires ParseAddress(t, 0).Err?
    ensures ParseSender(t) == Err(ParseAddress(t, 0).error)
  {
  }

  /** The sender parser fails as its key stage does once the address stage succeeds. */
  lemma SenderFailsInKeys(t: seq<uint8>, a: nat)
    requires ParseAddress(t, 0).Ok? && ParseAddress(t, 0).value.next == a
    requires ParseKeys(t, a).Err?
    ensures ParseSender(t) == Err(ParseKeys(t, a).error)
  {
  }

  /** The sender parser fails as its proof-of-work stage does once the first two succeed. */
  lemma SenderFailsInPow(t: seq<uint8>, a: nat)
    requires ParseAddress(t, 0).Ok? && ParseAddress(t, 0).value.next == a
    requires ParseKeys(t, a).Ok?
    requires ParsePow(t, a + 132).Err?
    ensures ParseSender(t) == Err(ParsePow(t, a + 132).error)
  {
  }

  /** Where each sender field starts. */
  function SenderFieldOffsets(p: Plaintext): set<nat> {
    var a := |AddressBytes(p)|;
    AddressFieldOffsets(p, 0) + KeyFieldOffsets(a) + PowFieldOffsets(p, a + 132)
  }

  /** A source cut off inside the sender fields fails with a read error; with EOF at a field start. */
  lemma SenderTruncated(s: seq<uint8>, p: Plaintext, k: nat)
    requires HoldsAt(s, 0, SenderBytes(p))
    requires k < |SenderBytes(p)|
    ensures ParseSender(s[..k]).Err?
    ensures k in SenderFieldOffsets(p) ==> ParseSender(s[..k]) == Err(EOF)
  {
    SenderPieces(s, p);
    var a := |AddressBytes(p)|;
    var t := s[..k];
    if k < a {
      AddressTruncated(s, 0, p, k);
      SenderFailsInAddress(t);
    } else {
      HoldsAtCut(s, 0, AddressBytes(p), k);
      AddressRoundTrip(t, 0, p);
      if k < a + 132 {
        KeysTruncated(s, a, p, k);
        SenderFailsInKeys(t, a);
      } else {
        HoldsAtCut(s, a, KeyBytes(p), k);
        KeysRoundTrip(t, a, p);
        PowTruncated(s, a + 132, p, k);
        SenderFailsInPow(t, a);
      }
    }
  }

  // ---------------------------------------------------------------
  // Length-prefixed byte strings.

  /** The length-prefixed string parser, on a source holding the prefix and the bytes piece by piece. */
  lemma ParseVarBytesAt(s: seq<uint8>, pos: nat, x: Bytes)
    requires |x| <= MaxPayloadOfMsgObject
    requires HoldsAt(s, pos, VarIntBytes(|x|))
    requires HoldsAt(s, pos + |VarIntBytes(|x|)|, x)
    ensures ParseVarBytes(s, pos) == Ok(Parsed(x, pos + |VarIntBytes(|x|)| + |x|))
  {
    ReadVarIntOfVarIntBytes(s, pos, |x|);
  }

  /** Reading a length-prefixed string where one was written gives it back. */
  lemma ParseVarBytesOfVarBytes(s: seq<uint8>, pos: nat, x: Bytes)
    requires HoldsAt(s, pos, VarBytes(x))
    requires |x| <= MaxPayloadOfMsgObject
    ensures ParseVarBytes(s, pos) == Ok(Parsed(x, pos + |VarBytes(x)|))
  {
    HoldsAtSplit(s, pos, VarIntBytes(|x|), x);
    ParseVarBytesAt(s, pos, x);
  }

  /**
   * A declared length above the object payload limit is refused with a
   * MessageError whatever follows it.
   */
  lemma ParseVarBytesOversized(s: seq<uint8>, pos: nat, n: uint64)
    requires HoldsAt(s, pos, VarIntBytes(n))
    requires n > MaxPayloadOfMsgObject
    ensures ParseVarBytes(s, pos) == Err(MessageError("DecodeFromDecrypted"))
  {
    ReadVarIntOfVarIntBytes(s, pos, n);
  }

  /** Where the length and, when there are any, the bytes of a string written at pos start. */
  function VarBytesFieldOffsets(x: Bytes, pos: nat): set<nat> {
    {pos} + if x != [] then {pos + |VarIntBytes(|x|)|} else {}
  }

  /** The field offsets of a length-prefixed string lie inside it. */
  lemma VarBytesFieldOffsetsWithin(x: Bytes, pos: nat)
    ensures forall o :: o in VarBytesFieldOffsets(x, pos) ==> pos <= o < pos + |VarBytes(x)|
  {
  }

  /** A source cut off inside a length-prefixed string fails with a read error. */
  lemma VarBytesTruncated(s: seq<uint8>, pos: nat, x: Bytes, k: nat)
    requires HoldsAt(s, pos, VarBytes(x))
    requires |x| <= MaxPayloadOfMsgObject
    requires pos <= k < pos + |VarBytes(x)|
    ensures ParseVarBytes(s[..k], pos).Err?
    ensures IsReadError(ParseVarBytes(s[..k], pos).error)
    ensures k in VarBytesFieldOffsets(x, pos) ==> ParseVarBytes(s[..k], pos) == Err(EOF)
  {
    var v := VarIntBytes(|x|);
    HoldsAtSplit(s, pos, v, x);
    if k < pos + |v| {
      ReadVarIntTruncated(s, pos, |x|, k);
    } else {
      ReadVarIntBeforeCut(s, pos, |x|, k);
    }
  }

  // ---------------------------------------------------------------
  // The whole plaintext.

  lemma PlaintextPieces(b: BroadcastFields, rest: seq<uint8>)
    ensures var p := b.plaintext;
      var s := EncryptionBytes(b) + rest;
      && HoldsAt(s, 0, SenderBytes(p))
      && HoldsAt(s, |SenderBytes(p)|, VarBytes(p.message))
      && HoldsAt(s, |SenderBytes(p)| + |VarBytes(p.message)|, VarBytes(p.signature))
      && |EncryptionBytes(b)| == |SenderBytes(p)| + |VarBytes(p.message)| + |VarBytes(p.signature)|
  {
    var p := b.plaintext;
    var sender, message, signature := SenderBytes(p), VarBytes(p.message), VarBytes(p.signature);
    var s := EncryptionBytes(b) + rest;
    HoldsAtPrefix(sender + message + signature, rest);
    HoldsAtSplit(s, 0, sender + message, signature);
    HoldsAtSplit(s, 0, sender, message);
  }

  /** Reading a plaintext laid out piece by piece gives back its fields. */
  lemma PlaintextPiecesRoundTrip(s: seq<uint8>, p: Plaintext)
    requires |p.message| <= MaxPayloadOfMsgObject && |p.signature| <= MaxPayloadOfMsgObject
    requires HoldsAt(s, 0, SenderBytes(p))
    requires HoldsAt(s, |SenderBytes(p)|, VarBytes(p.message))
    requires HoldsAt(s, |SenderBytes(p)| + |VarBytes(p.message)|, VarBytes(p.signature))
    ensures ParsePlaintext(s) == Ok(p)
  {
    var m := |SenderBytes(p)|;
    var g := m + |VarBytes(p.message)|;
    SenderRoundTrip(s, p);
    ParseVarBytesOfVarBytes(s, m, p.message);
    ParseVarBytesOfVarBytes(s, g, p.signature);
    ParsePlaintextAt(s, p, m, g);
  }

  /** The plaintext parser, given the outcome of each of its stages. */
  lemma ParsePlaintextAt(s: seq<uint8>, p: Plaintext, m: nat, g: nat)
    requires m <= |s|
    requires ParseSender(s) == Ok(Parsed(p.(message := [], signature := []), m))
    requires ParseVarBytes(s, m).Ok? && ParseVarBytes(s, m).value == Parsed(p.message, g)
    requires g <= |s|
    requires ParseVarBytes(s, g).Ok? && ParseVarBytes(s, g).value.val == p.signature
    ensures ParsePlaintext(s) == Ok(p)
  {
    assert p.(message := [], signature := []).(message := p.message, signature := p.signature) == p;
  }

  /**
   * Decoding the encryption plaintext of an object gives back every inner
   * field, whatever follows it, provided message and signature are within
   * the object payload limit.
   */
  lemma PlaintextRoundTrip(b: BroadcastFields, rest: seq<uint8>)
    requires |b.plaintext.message| <= MaxPayloadOfMsgObject
    requires |b.plaintext.signature| <= MaxPayloadOfMsgObject
    ensures ParsePlaintext(EncryptionBytes(b) + rest) == Ok(b.plaintext)
  {
    PlaintextPieces(b, rest);
    PlaintextPiecesRoundTrip(EncryptionBytes(b) + rest, b.plaintext);
  }

  /**
   * A declared message length above the object payload limit is refused
   * with a MessageError, whatever follows the length.
   */
  lemma PlaintextOversizedMessage(p: Plaintext, n: uint64, rest: seq<uint8>)
    requires n > MaxPayloadOfMsgObject
    ensures ParsePlaintext(SenderBytes(p) + VarIntBytes(n) + rest)
         == Err(MessageError("DecodeFromDecrypted"))
  {
    var sender, length := SenderBytes(p), VarIntBytes(n);
    var s := sender + length + rest;
    HoldsAtPrefix(sender + length, rest);
    HoldsAtSplit(s, 0, sender, length);
    SenderRoundTrip(s, p);
    ParseVarBytesOversized(s, |sender|, n);
  }

  /**
   * A declared signature length above the object payload limit is refused
   * with a MessageError, whatever follows the length.
   */
  lemma PlaintextOversizedSignature(p: Plaintext, n: uint64, rest: seq<uint8>)
    requires |p.message| <= MaxPayloadOfMsgObject
    requires n > MaxPayloadOfMsgObject
    ensures ParsePlaintext(SenderBytes(p) + VarBytes(p.message) + VarIntBytes(n) + rest)
         == Err(MessageError("DecodeFromDecrypted"))
  {
    var sender, message, length := SenderBytes(p), VarBytes(p.message), VarIntBytes(n);
    var s := sender + message + length + rest;
    HoldsAtPrefix(sender + message + length, rest);
    HoldsAtSplit(s, 0, sender + message, length);
    HoldsAtSplit(s, 0, sender, message);
    SenderRoundTrip(s, p);
    ParseVarBytesOfVarBytes(s, |sender|, p.message);
    ParseVarBytesOversized(s, |sender| + |message|, n);
  }

  /** Where each field of the plaintext starts, the message and signature bytes when not empty. */
  function PlaintextFieldOffsets(p: Plaintext): set<nat> {
    var m := |SenderBytes(p)|;
    SenderFieldOffsets(p) + VarBytesFieldOffsets(p.message, m)
      + VarBytesFieldOffsets(p.signature, m + |VarBytes(p.message)|)
  }

  /** The plaintext parser fails as its sender stage does. */
  lemma PlaintextFailsInSender(t: seq<uint8>)
    requires ParseSender(t).Err?
    ensures ParsePlaintext(t) == Err(ParseSender(t).error)
  {
  }

  /** The plaintext parser fails as the message read does once the sender fields are read. */
  lemma PlaintextFailsInMessage(t: seq<uint8>, m: nat)
    requires ParseSender(t).Ok? && ParseSender(t).value.next == m
    requires ParseVarBytes(t, m).Err?
    ensures ParsePlaintext(t) == Err(ParseVarBytes(t, m).error)
  {
  }

  /** The plaintext parser fails as the signature read does once the message is read. */
  lemma PlaintextFailsInSignature(t: seq<uint8>, m: nat, g: nat)
    requires ParseSender(t).Ok? && ParseSender(t).value.next == m
    requires ParseVarBytes(t, m).Ok? && ParseVarBytes(t, m).value.next == g
    requires ParseVarBytes(t, g).Err?
    ensures ParsePlaintext(t) == Err(ParseVarBytes(t, g).error)
  {
  }

  /** Every sender field starts before the sender fields end. */
  lemma SenderFieldOffsetsBelow(p: Plaintext)
    ensures forall o :: o in SenderFieldOffsets(p) ==> o < |SenderBytes(p)|
  {
    var s := SenderBytes(p);
    HoldsAtPrefix(s, []);
    assert s + [] == s;
    SenderPieces(s, p);
    AddressPieces(s, 0, p);
    PowPieces(s, |AddressBytes(p)| + 132, p);
  }

  lemma PlaintextTruncatedInSender(s: seq<uint8>, p: Plaintext, k: nat)
    requires HoldsAt(s, 0, SenderBytes(p))
    requires k < |SenderBytes(p)|
    ensures ParsePlaintext(s[..k]).Err? && IsReadError(ParsePlaintext(s[..k]).error)
    ensures k in PlaintextFieldOffsets(p) ==> ParsePlaintext(s[..k]) == Err(EOF)
  {
    SenderTruncated(s, p, k);
    PlaintextFailsInSender(s[..k]);
  }

  lemma PlaintextTruncatedInMessage(s: seq<uint8>, p: Plaintext, k: nat)
    requires |p.message| <= MaxPayloadOfMsgObject
    requires HoldsAt(s, 0, SenderBytes(p))
    requires HoldsAt(s, |SenderBytes(p)|, VarBytes(p.message))
    requires |SenderBytes(p)| <= k < |SenderBytes(p)| + |VarBytes(p.message)|
    ensures ParsePlaintext(s[..k]).Err? && IsReadError(ParsePlaintext(s[..k]).error)
    ensures k in PlaintextFieldOffsets(p) ==> ParsePlaintext(s[..k]) == Err(EOF)
  {
    var m := |SenderBytes(p)|;
    SenderFieldOffsetsBelow(p);
    HoldsAtCut(s, 0, SenderBytes(p), k);
    SenderRoundTrip(s[..k], p);
    VarBytesTruncated(s, m, p.message, k);
    PlaintextFailsInMessage(s[..k], m);
  }

  /** A plaintext field offset at or past the signature length is one of the signature's. */
  lemma SignatureFieldOffset(p: Plaintext, k: nat)
    requires k in PlaintextFieldOffsets(p)
    requires |SenderBytes(p)| + |VarBytes(p.message)| <= k
    ensures k in VarBytesFieldOffsets(p.signature, |SenderBytes(p)| + |VarBytes(p.message)|)
  {
    SenderFieldOffsetsBelow(p);
    VarBytesFieldOffsetsWithin(p.message, |SenderBytes(p)|);
  }

  /** A cut past the sender fields leaves them readable. */
  lemma SenderBeforeCut(s: seq<uint8>, p: Plaintext, k: nat)
    requires HoldsAt(s, 0, SenderBytes(p))
    requires |SenderBytes(p)| <= k <= |s|
    ensures ParseSender(s[..k]).Ok? && ParseSender(s[..k]).value.next == |SenderBytes(p)|
  {
    HoldsAtCut(s, 0, SenderBytes(p), k);
    SenderRoundTrip(s[..k], p);
  }

  /** A cut past a length-prefixed string leaves it readable. */
  lemma VarBytesBeforeCut(s: seq<uint8>, pos: nat, x: Bytes, k: nat)
    requires |x| <= MaxPayloadOfMsgObject
    requires HoldsAt(s, pos, VarBytes(x))
    requires pos + |VarBytes(x)| <= k <= |s|
    ensures ParseVarBytes(s[..k], pos) == Ok(Parsed(x, pos + |VarBytes(x)|))
  {
    HoldsAtCut(s, pos, VarBytes(x), k);
    ParseVarBytesOfVarBytes(s[..k], pos, x);
  }

  lemma PlaintextTruncatedInSignature(s: seq<uint8>, p: Plaintext, k: nat)
    requires |p.message| <= MaxPayloadOfMsgObject && |p.signature| <= MaxPayloadOfMsgObject
    requires HoldsAt(s, 0, SenderBytes(p))
    requires HoldsAt(s, |SenderBytes(p)|, VarBytes(p.message))
    requires HoldsAt(s, |SenderBytes(p)| + |VarBytes(p.message)|, VarBytes(p.signature))
    requires |SenderBytes(p)| + |VarBytes(p.message)| <= k
    requires k < |SenderBytes(p)| + |VarBytes(p.message)| + |VarBytes(p.signature)|
    ensures ParsePlaintext(s[..k]).Err? && IsReadError(ParsePlaintext(s[..k]).error)
    ensures k in PlaintextFieldOffsets(p) ==> ParsePlaintext(s[..k]) == Err(EOF)
  {
    var m := |SenderBytes(p)|;
    var g := m + |VarBytes(p.message)|;
    SenderBeforeCut(s, p, k);
    VarBytesBeforeCut(s, m, p.message, k);
    VarBytesTruncated(s, g, p.signature, k);
    PlaintextFailsInSignature(s[..k], m, g);
    if k in PlaintextFieldOffsets(p) {
      SignatureFieldOffset(p, k);
    }
  }

  /**
   * Cutting the encryption plaintext anywhere makes decoding fail with a
   * read error, and cutting it where a field starts makes it fail with EOF.
   */
  lemma PlaintextTruncated(b: BroadcastFields, k: nat)
    requires |b.plaintext.message| <= MaxPayloadOfMsgObject
    requires |b.plaintext.signature| <= MaxPayloadOfMsgObject
    requires k < |EncryptionBytes(b)|
    ensures ParsePlaintext(EncryptionBytes(b)[..k]).Err?
    ensures IsReadError(ParsePlaintext(EncryptionBytes(b)[..k]).error)
    ensures k in PlaintextFieldOffsets(b.plaintext) ==> ParsePlaintext(EncryptionBytes(b)[..k]) == Err(EOF)
  {
    var p := b.plaintext;
    var s := EncryptionBytes(b);
    PlaintextPieces(b, []);
    assert s + [] == s;
    var m := |SenderBytes(p)|;
    var g := m + |VarBytes(p.message)|;
    if k < m {
      PlaintextTruncatedInSender(s, p, k);
    } else if k < g {
      PlaintextTruncatedInMessage(s, p, k);
    } else {
      PlaintextTruncatedInSignature(s, p, k);
    }
  }

}
