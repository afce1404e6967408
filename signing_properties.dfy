/**
 * What the signing layout promises: the signed bytes are the wire header
 * without its nonce, the tag, and the encryption plaintext without its
 * trailing signature; so neither the nonce, nor the ciphertext, nor the
 * signature affects them.
 */
module SigningProperties {
  import opened Primitives
  import opened Stream
  import opened BroadcastLayout

  /** The signed bytes, stated through the other two layouts. */
  lemma SigningLayout(b: BroadcastFields)
    requires HasNeededTag(b.envelope)
    ensures var h := b.envelope.header;
      var e := EncryptionBytes(b);
      && |ObjectHeaderBytes(h)| >= 8 && |e| >= |VarBytes(b.plaintext.signature)|
      && SigningBytes(b)
         == ObjectHeaderBytes(h)[8..] + TagBytes(b.envelope)
            + e[..|e| - |VarBytes(b.plaintext.signature)|]
  {
    Pow256Values();
    var h := b.envelope.header;
    var p := b.plaintext;
    var nonce := BigEndian(h.nonce, 8);
    var rest := Int64Bytes(h.expiration) + BigEndian(h.objectType, 4)
      + VarIntBytes(h.version) + VarIntBytes(h.streamNumber);
    assert ObjectHeaderBytes(h) == nonce + rest;
    DropPrefix(nonce, rest);
    var kept := SenderBytes(p) + VarBytes(p.message);
    assert EncryptionBytes(b) == kept + VarBytes(p.signature);
    assert (kept + VarBytes(p.signature))[..|kept|] == kept;
  }

  /**
   * Two objects that agree on every field but the nonce, the ciphertext
   * and the signature sign the same bytes.
   */
  lemma SigningIgnoresNonceCiphertextSignature(b: BroadcastFields, c: BroadcastFields)
    requires HasNeededTag(b.envelope) && HasNeededTag(c.envelope)
    requires b.envelope.header.(nonce := 0) == c.envelope.header.(nonce := 0)
    requires b.envelope.header.version >= TagBroadcastVersion ==> b.envelope.tag == c.envelope.tag
    requires b.plaintext.(signature := []) == c.plaintext.(signature := [])
    ensures SigningBytes(b) == SigningBytes(c)
  {
    assert b.envelope.header.expiration == c.envelope.header.expiration;
    assert b.plaintext.message == c.plaintext.message;
    assert SenderBytes(b.plaintext) == SenderBytes(c.plaintext) by {
      assert b.plaintext.(message := [], signature := []) == c.plaintext.(message := [], signature := []);
      SenderBytesIgnoresPayload(b.plaintext);
      SenderBytesIgnoresPayload(c.plaintext);
    }
  }

  /** The sender fields do not include the message or the signature. */
  lemma SenderBytesIgnoresPayload(p: Plaintext)
    ensures SenderBytes(p) == SenderBytes(p.(message := [], signature := []))
  {
  }
}
