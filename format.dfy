/**
 * The payload encoding of msg and broadcast objects: code 1 carries a
 * plain body, code 2 a subject and a body rendered as
 * "Subject:<subject>\nBody:<body>". On the wire an encoding is its code,
 * the length of its message and the message itself.
 */
module Format {
  import opened Primitives
  import opened Stream
  import opened WireConstants

  const Newline: uint8 := 0x0a

  /** "Subject:" */
  const SubjectTag: seq<uint8> := [0x53, 0x75, 0x62, 0x6a, 0x65, 0x63, 0x74, 0x3a]

  /** "\nBody:" */
  const BodyTag: seq<uint8> := [0x0a, 0x42, 0x6f, 0x64, 0x79, 0x3a]

  datatype Encoding = Encoding1(body: Bytes) | Encoding2(subject: Bytes, body: Bytes) {
    /** The encoding format code. */
    function Code(): (c: uint64)
      ensures c == 1 <==> Encoding1?
      ensures c == 2 <==> Encoding2?
    {
      if Encoding1? then 1 else 2
    }

    /**
     * The raw form of the object payload: Encoding1's body verbatim;
     * Encoding2's subject and body in the form the pattern reads back,
     * which gives its own groups back exactly when the subject has no newline.
     */
    function Message(): (m: seq<uint8>)
      ensures Encoding1? ==> m == body
      ensures Encoding2? ==> (MatchesEncoding2(m, subject, body) <==> Newline !in subject)
    {
      if Encoding1? then body else SubjectTag + subject + BodyTag + body
    }
  }

  /**
   * The text matches ^Subject:(.*)\nBody:((?s).*) with the given groups:
   * the first group may hold any byte but a newline, the second any byte.
   */
  predicate MatchesEncoding2(t: seq<uint8>, subject: seq<uint8>, body: seq<uint8>) {
    Newline !in subject && t == SubjectTag + subject + BodyTag + body
  }

  /** The first newline in t at or after from. */
  function FirstNewline(t: seq<uint8>, from: nat): (r: Option<nat>)
    requires from <= |t|
    ensures r.Some? ==> from <= r.value < |t| && t[r.value] == Newline
    ensures forall j :: from <= j < |t| && t[j] == Newline ==> r.Some? && r.value <= j
    decreases |t| - from
  {
    if from == |t| then None
    else if t[from] == Newline then Some(from)
    else FirstNewline(t, from + 1)
  }

  /**
   * Encoding2's readMessage: the text must start with "Subject:"; the
   * subject runs to the first newline, which must start "\nBody:"; the
   * body is everything after that.
   */
  function ReadEncoding2(t: Bytes): (r: Result<Encoding>)
    ensures r.Ok? ==> r.value.Encoding2? && MatchesEncoding2(t, r.value.subject, r.value.body)
    ensures r.Err? ==> r.error == InvalidFormat
  {
    if |t| < |SubjectTag| || t[..|SubjectTag|] != SubjectTag then Err(InvalidFormat)
    else match FirstNewline(t, |SubjectTag|)
      case None => Err(InvalidFormat)
      case Some(i) =>
        if |t| < i + |BodyTag| || t[i..i + |BodyTag|] != BodyTag then Err(InvalidFormat)
        else
          assert t == t[..|SubjectTag|] + t[|SubjectTag|..i] + t[i..i + |BodyTag|] + t[i + |BodyTag|..];
          Ok(Encoding2(t[|SubjectTag|..i], t[i + |BodyTag|..]))
  }

  /**
   * ReadEncoding2 succeeds exactly on the texts the pattern matches, and
   * then returns the pattern's groups, which are unique.
   */
  lemma ReadEncoding2IsMatch(t: Bytes, subject: Bytes, body: Bytes)
    ensures ReadEncoding2(t) == Ok(Encoding2(subject, body)) <==> MatchesEncoding2(t, subject, body)
  {
    if MatchesEncoding2(t, subject, body) {
      var n := |SubjectTag|;
      var i := n + |subject|;
      assert t[..n] == SubjectTag;
      assert t[n..i] == subject;
      assert t[i..i + |BodyTag|] == BodyTag;
      assert t[i + |BodyTag|..] == body;
      assert t[i] == Newline;
      assert forall j :: n <= j < i ==> t[j] == subject[j - n];
    }
  }

  /** ReadEncoding2 undoes Message exactly when the subject has no newline. */
  lemma Encoding2RoundTrip(subject: Bytes, body: Bytes)
    requires |Encoding2(subject, body).Message()| < 0x1_0000_0000_0000_0000
    ensures ReadEncoding2(Encoding2(subject, body).Message()) == Ok(Encoding2(subject, body))
        <==> Newline !in subject
  {
    ReadEncoding2IsMatch(Encoding2(subject, body).Message(), subject, body);
  }

  /**
   * Read: code 1 stores the text as the body and never fails, code 2
   * parses it, any other code is unsupported. A value that comes back
   * carries the code asked for and renders the text it was read from.
   */
  function Read(code: uint64, msg: Bytes): (r: Result<Encoding>)
    ensures r.Ok? ==> r.value.Code() == code && r.value.Message() == msg
    ensures code == 1 ==> r.Ok?
    ensures r.Err? ==> r.error == (if code == 2 then InvalidFormat else UnsupportedEncoding)
  {
    if code == 1 then Ok(Encoding1(msg))
    else if code == 2 then ReadEncoding2(msg)
    else Err(UnsupportedEncoding)
  }

  /** Reading an encoding's own message under its own code gives it back, unless a subject holds a newline. */
  lemma ReadOfMessage(e: Encoding)
    requires |e.Message()| < 0x1_0000_0000_0000_0000
    ensures Read(e.Code(), e.Message()) == Ok(e) <==> (e.Encoding1? || Newline !in e.subject)
  {
    if e.Encoding2? {
      Encoding2RoundTrip(e.subject, e.body);
    }
  }

  /** The stream form of an encoding: code, message length, message. */
  function EncodingBytes(e: Encoding): (r: seq<uint8>)
    requires |e.Message()| < 0x1_0000_0000_0000_0000
    ensures |e.Message()| < |r| <= 1 + MaxVarIntSize + |e.Message()|
    ensures r[0] == e.Code()
    ensures r[|r| - |e.Message()|..] == e.Message()
  {
    VarIntBytesParts(e.Code());
    VarIntBytes(e.Code()) + VarIntBytes(|e.Message()|) + e.Message()
  }

  /**
   * Reads an encoding from the start of s: the code, the message length,
   * which must not exceed the object payload limit and is checked before
   * any message byte is read, then the message, handed to Read.
   */
  function ParseEncoding(s: seq<uint8>): (r: Result<Encoding>)
    ensures r.Ok? ==> |r.value.Message()| <= MaxPayloadOfMsgObject
    ensures r.Err? ==> IsReadError(r.error) || r.error == MessageError("DecodeFromDecrypted")
                       || r.error == InvalidFormat || r.error == UnsupportedEncoding
  {
    var code :- ReadVarInt(s, 0);
    var length :- ReadVarInt(s, code.next);
    if length.val > MaxPayloadOfMsgObject then Err(MessageError("DecodeFromDecrypted"))
    else
      var message :- ReadFull(s, length.next, length.val);
      Read(code.val, message)
  }

  /** Three pieces written back to back, followed by anything, each hold where they were put. */
  lemma ThreePieces(c: seq<uint8>, n: seq<uint8>, m: seq<uint8>, rest: seq<uint8>)
    ensures HoldsAt(c + n + m + rest, 0, c)
    ensures HoldsAt(c + n + m + rest, |c|, n)
    ensures HoldsAt(c + n + m + rest, |c| + |n|, m)
  {
    var s := c + n + m + rest;
    assert s == c + (n + (m + rest));
    HoldsAtPrefix(c, n + (m + rest));
    DropPrefix(c, n + (m + rest));
    HoldsAtPrefix(n, m + rest);
    DropPrefix(n, m + rest);
    HoldsAtPrefix(m, rest);
    assert s[|c|..][..|n|] == n;
    assert s[|c| + |n|..][..|m|] == m;
  }

  /** The code and length varints and the message, where EncodingBytes puts them. */
  lemma EncodingPieces(e: Encoding, rest: seq<uint8>)
    requires |e.Message()| < 0x1_0000_0000_0000_0000
    ensures var s, c := EncodingBytes(e) + rest, |VarIntBytes(e.Code())|;
      && HoldsAt(s, 0, VarIntBytes(e.Code()))
      && HoldsAt(s, c, VarIntBytes(|e.Message()|))
      && HoldsAt(s, c + |VarIntBytes(|e.Message()|)|, e.Message())
  {
    ThreePieces(VarIntBytes(e.Code()), VarIntBytes(|e.Message()|), e.Message(), rest);
  }

  /** The decoder on a source whose code, length and message are already known. */
  lemma ParseEncodingAt(s: seq<uint8>, a: nat, g: nat, code: uint64, m: seq<uint8>)
    requires |m| <= MaxPayloadOfMsgObject
    requires ReadVarInt(s, 0) == Ok(Parsed(code, a)) && a <= |s|
    requires ReadVarInt(s, a) == Ok(Parsed(|m|, g)) && g <= |s|
    requires HoldsAt(s, g, m)
    ensures ParseEncoding(s) == Read(code, m)
  {
  }

  /**
   * Decoding an encoding's stream form reads its message back under its
   * code: the encoding itself comes back unless its subject holds a newline.
   */
  lemma DecodeOfEncode(e: Encoding, rest: seq<uint8>)
    requires |e.Message()| <= MaxPayloadOfMsgObject
    ensures ParseEncoding(EncodingBytes(e) + rest) == Read(e.Code(), e.Message())
    ensures ParseEncoding(EncodingBytes(e) + rest) == Ok(e) <==> (e.Encoding1? || Newline !in e.subject)
  {
    var s := EncodingBytes(e) + rest;
    var c := |VarIntBytes(e.Code())|;
    EncodingPieces(e, rest);
    ReadVarIntOfVarIntBytes(s, 0, e.Code());
    ReadVarIntOfVarIntBytes(s, c, |e.Message()|);
    ParseEncodingAt(s, c, c + |VarIntBytes(|e.Message()|)|, e.Code(), e.Message());
    ReadOfMessage(e);
  }

  /** A length read above the payload limit ends decoding before the message is read. */
  lemma ParseEncodingRefusesLength(s: seq<uint8>, a: nat, n: uint64)
    requires ReadVarInt(s, 0).Ok? && ReadVarInt(s, 0).value.next == a
    requires a <= |s| && ReadVarInt(s, a).Ok? && ReadVarInt(s, a).value.val == n
    requires n > MaxPayloadOfMsgObject
    ensures ParseEncoding(s) == Err(MessageError("DecodeFromDecrypted"))
  {
  }

  /** A declared length above the payload limit is refused before the message is read. */
  lemma DecodeOversized(code: uint64, n: uint64, rest: seq<uint8>)
    requires n > MaxPayloadOfMsgObject
    ensures ParseEncoding(VarIntBytes(code) + VarIntBytes(n) + rest) == Err(MessageError("DecodeFromDecrypted"))
  {
    var c, v := VarIntBytes(code), VarIntBytes(n);
    var s := c + v + rest;
    assert s == c + (v + rest);
    HoldsAtPrefix(c, v + rest);
    DropPrefix(c, v + rest);
    HoldsAtPrefix(v, rest);
    assert HoldsAt(s, |c|, v);
    ReadVarIntOfVarIntBytes(s, 0, code);
    ReadVarIntOfVarIntBytes(s, |c|, n);
    ParseEncodingRefusesLength(s, |c|, n);
  }

  /** A failed read of the code ends decoding with its error. */
  lemma ParseEncodingFailsInCode(t: seq<uint8>)
    requires ReadVarInt(t, 0).Err?
    ensures ParseEncoding(t) == Err(ReadVarInt(t, 0).error)
  {
  }

  /** A failed read of the length ends decoding with its error. */
  lemma ParseEncodingFailsInLength(t: seq<uint8>, a: nat)
    requires ReadVarInt(t, 0).Ok? && ReadVarInt(t, 0).value.next == a
    requires a <= |t| && ReadVarInt(t, a).Err?
    ensures ParseEncoding(t) == Err(ReadVarInt(t, a).error)
  {
  }

  /** A failed read of the message ends decoding with its error. */
  lemma ParseEncodingFailsInMessage(t: seq<uint8>, a: nat, b: nat, n: nat)
    requires ReadVarInt(t, 0).Ok? && ReadVarInt(t, 0).value.next == a
    requires a <= |t| && ReadVarInt(t, a) == Ok(Parsed(n, b))
    requires n <= MaxPayloadOfMsgObject && b <= |t| && ReadFull(t, b, n).Err?
    ensures ParseEncoding(t) == Err(ReadFull(t, b, n).error)
  {
  }

  /** A stream form cut off anywhere fails to decode with a read error. */
  lemma DecodeTruncated(e: Encoding, k: nat)
    requires |e.Message()| <= MaxPayloadOfMsgObject
    requires k < |EncodingBytes(e)|
    ensures ParseEncoding(EncodingBytes(e)[..k]).Err?
    ensures IsReadError(ParseEncoding(EncodingBytes(e)[..k]).error)
  {
    var s := EncodingBytes(e);
    var c := |VarIntBytes(e.Code())|;
    EncodingPieces(e, []);
    assert s + [] == s;
    if k < c {
      ReadVarIntTruncated(s, 0, e.Code(), k);
      ParseEncodingFailsInCode(s[..k]);
    } else {
      TruncatedPastCode(s, e, k);
    }
  }

  /** A cut past the code varint: the length or the message is cut off. */
  lemma TruncatedPastCode(s: seq<uint8>, e: Encoding, k: nat)
    requires |e.Message()| <= MaxPayloadOfMsgObject
    requires HoldsAt(s, 0, VarIntBytes(e.Code()))
    requires HoldsAt(s, |VarIntBytes(e.Code())|, VarIntBytes(|e.Message()|))
    requires HoldsAt(s, |VarIntBytes(e.Code())| + |VarIntBytes(|e.Message()|)|, e.Message())
    requires |VarIntBytes(e.Code())| <= k
    requires k < |VarIntBytes(e.Code())| + |VarIntBytes(|e.Message()|)| + |e.Message()|
    ensures ParseEncoding(s[..k]).Err?
    ensures IsReadError(ParseEncoding(s[..k]).error)
  {
    var c, n := |VarIntBytes(e.Code())|, |VarIntBytes(|e.Message()|)|;
    ReadVarIntBeforeCut(s, 0, e.Code(), k);
    if k < c + n {
      ReadVarIntTruncated(s, c, |e.Message()|, k);
      ParseEncodingFailsInLength(s[..k], c);
    } else {
      HoldsAtCut(s, c, VarIntBytes(|e.Message()|), k);
      ReadVarIntOfVarIntBytes(s[..k], c, |e.Message()|);
      ParseEncodingFailsInMessage(s[..k], c, c + n, |e.Message()|);
    }
  }

  /**
   * Decode: reads the code, the length and the message from input, in
   * that order, returning the first error met.
   */
  method Decode(input: seq<uint8>) returns (r: Result<Encoding>)
    ensures r == ParseEncoding(input)
  {
    var code := ReadVarInt(input, 0);
    if code.Err? {
      return Err(code.error);
    }
    var length := ReadVarInt(input, code.value.next);
    if length.Err? {
      return Err(length.error);
    }
    if length.value.val > MaxPayloadOfMsgObject {
      return Err(MessageError("DecodeFromDecrypted"));
    }
    var message := ReadFull(input, length.value.next, length.value.val);
    if message.Err? {
      return Err(message.error);
    }
    r := Read(code.value.val, message.value);
  }

  /**
   * Encode: writes the code, the message length and the message to w, in
   * that order, stopping at the first write that fails.
   */
  method Encode(w: Sink, e: Encoding) returns (err: Option<Error>)
    requires |e.Message()| < 0x1_0000_0000_0000_0000
    modifies w
    ensures Wrote(w, EncodingBytes(e), err)
    ensures err.Some? ==> exists k :: k in {0, |VarIntBytes(e.Code())|,
                                            |VarIntBytes(e.Code())| + |VarIntBytes(|e.Message()|)|}
                                      && w.data == old(w.data) + EncodingBytes(e)[..k]
  {
    var c, n, m := VarIntBytes(e.Code()), VarIntBytes(|e.Message()|), e.Message();
    ghost var start := w.data;
    err := w.Write(c);
    if err.Some? {
      AppendedStop(start, w.capacity, w.data, c, err, n + m);
      assert EncodingBytes(e)[..0] == [];
      return;
    }
    ghost var afterCode := w.data;
    err := w.Write(n);
    if err.Some? {
      AppendedThen(start, w.capacity, afterCode, c, w.data, n, err);
      AppendedStop(start, w.capacity, w.data, c + n, err, m);
      assert EncodingBytes(e)[..|c|] == c;
      return;
    }
    ghost var afterLength := w.data;
    AppendedThen(start, w.capacity, afterCode, c, afterLength, n, None);
    err := w.Write(m);
    AppendedThen(start, w.capacity, afterLength, c + n, w.data, m, err);
    assert EncodingBytes(e) == c + n + m;
    assert err.Some? ==> EncodingBytes(e)[..|c| + |n|] == c + n;
  }
}
