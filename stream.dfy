/**
 * Byte sources and sinks. A source is the sequence of bytes a reader would
 * deliver, read through a position index; a sink is an object that either
 * grows without bound (a bytes.Buffer) or holds at most a fixed number of
 * bytes (a fixed-size writer).
 */
module Stream {
  import opened Primitives

  datatype Option<+T> = None | Some(value: T)

  /** The errors the codecs return. */
  datatype Error =
    | EOF                     // io.EOF: no byte left where a field starts
    | UnexpectedEOF           // io.ErrUnexpectedEOF: a field cut short
    | ShortWrite              // io.ErrShortWrite: the sink is full
    | MessageError(fn: string) // wire.MessageError raised by function fn
    | InvalidFormat           // "Invalid format"
    | UnsupportedEncoding     // "Unsupported encoding"

  predicate IsReadError(e: Error) {
    e == EOF || e == UnexpectedEOF
  }

  datatype Result<+T> = Ok(value: T) | Err(error: Error) {
    predicate IsFailure() {
      Err?
    }

    function PropagateFailure<U>(): Result<U>
      requires Err?
    {
      Err(error)
    }

    function Extract(): T
      requires Ok?
    {
      value
    }
  }

  /** A value read from a source, and the position just after it. */
  datatype Parsed<+T> = Parsed(val: T, next: nat)

  /**
   * Reads exactly n bytes at pos, as io.ReadFull does: EOF when the source
   * is already exhausted, UnexpectedEOF when it ends inside the n bytes.
   */
  function ReadFull(s: seq<uint8>, pos: nat, n: nat): (r: Result<seq<uint8>>)
    requires pos <= |s|
    ensures r.Ok? <==> pos + n <= |s|
    ensures r.Ok? ==> r.value == s[pos..pos + n]
    ensures r.Err? ==> r.error == (if pos == |s| then EOF else UnexpectedEOF)
  {
    if pos + n <= |s| then Ok(s[pos..pos + n])
    else if pos == |s| then Err(EOF)
    else Err(UnexpectedEOF)
  }

  /** Reads a varint at pos: its prefix byte, then the 2, 4 or 8 bytes the prefix announces. */
  function ReadVarInt(s: seq<uint8>, pos: nat): (r: Result<Parsed<uint64>>)
    requires pos <= |s|
    ensures r.Ok? ==> pos < r.value.next <= |s| && r.value.next <= pos + MaxVarIntSize
    ensures r.Err? ==> IsReadError(r.error)
    ensures r.Err? && pos == |s| ==> r.error == EOF
  {
    var prefix :- ReadFull(s, pos, 1);
    var d := prefix[0];
    if d < 0xfd then Ok(Parsed(d, pos + 1))
    else
      var n := if d == 0xfd then 2 else if d == 0xfe then 4 else 8;
      var body :- ReadFull(s, pos + 1, n);
      Pow256Values();
      Ok(Parsed(FromBigEndian(body), pos + 1 + n))
  }

  /** s holds the bytes b at position pos. */
  predicate HoldsAt(s: seq<uint8>, pos: nat, b: seq<uint8>) {
    pos + |b| <= |s| && s[pos..pos + |b|] == b
  }

  /** A sequence holds its own first part at 0. */
  lemma HoldsAtPrefix(a: seq<uint8>, b: seq<uint8>)
    ensures HoldsAt(a + b, 0, a)
  {
    assert (a + b)[..|a|] == a;
  }

  /** What follows the first part of a sequence is its second part. */
  lemma DropPrefix(a: seq<uint8>, b: seq<uint8>)
    ensures (a + b)[|a|..] == b
  {
  }

  /** Bytes held at pos split into their two parts. */
  lemma HoldsAtSplit(s: seq<uint8>, pos: nat, a: seq<uint8>, b: seq<uint8>)
    requires HoldsAt(s, pos, a + b)
    ensures HoldsAt(s, pos, a) && HoldsAt(s, pos + |a|, b)
  {
    assert s[pos..pos + |a|] == (a + b)[..|a|];
    assert s[pos + |a|..pos + |a| + |b|] == (a + b)[|a|..];
  }

  /** Bytes held before a cut are still held once the source is cut there. */
  lemma HoldsAtCut(s: seq<uint8>, pos: nat, b: seq<uint8>, k: nat)
    requires HoldsAt(s, pos, b)
    requires pos + |b| <= k <= |s|
    ensures HoldsAt(s[..k], pos, b)
  {
    assert s[..k][pos..pos + |b|] == s[pos..pos + |b|];
  }

  /** Reading a varint where one was written gives back its value. */
  lemma ReadVarIntOfVarIntBytes(s: seq<uint8>, pos: nat, x: uint64)
    requires HoldsAt(s, pos, VarIntBytes(x))
    ensures ReadVarInt(s, pos) == Ok(Parsed(x, pos + |VarIntBytes(x)|))
  {
    var v := VarIntBytes(x);
    VarIntBytesParts(x);
    assert s[pos] == v[0];
    if |v| > 1 {
      assert s[pos + 1..pos + |v|] == v[1..];
    }
  }

  /** A source cut off inside a varint fails with a read error; with EOF when cut at its start. */
  lemma ReadVarIntTruncated(s: seq<uint8>, pos: nat, x: uint64, k: nat)
    requires HoldsAt(s, pos, VarIntBytes(x))
    requires pos <= k < pos + |VarIntBytes(x)|
    ensures ReadVarInt(s[..k], pos).Err?
    ensures k == pos ==> ReadVarInt(s[..k], pos) == Err(EOF)
  {
    var v := VarIntBytes(x);
    VarIntBytesParts(x);
    if k > pos {
      assert s[..k][pos] == v[0];
    }
  }

  /** A read that ends before the cut sees the same bytes as on the whole source. */
  lemma ReadFullBeforeCut(s: seq<uint8>, pos: nat, n: nat, k: nat)
    requires pos + n <= k <= |s|
    ensures ReadFull(s[..k], pos, n) == ReadFull(s, pos, n)
  {
    assert s[..k][pos..pos + n] == s[pos..pos + n];
  }

  lemma ReadVarIntBeforeCut(s: seq<uint8>, pos: nat, x: uint64, k: nat)
    requires HoldsAt(s, pos, VarIntBytes(x))
    requires pos + |VarIntBytes(x)| <= k <= |s|
    ensures ReadVarInt(s[..k], pos) == Ok(Parsed(x, pos + |VarIntBytes(x)|))
  {
    HoldsAtCut(s, pos, VarIntBytes(x), k);
    ReadVarIntOfVarIntBytes(s[..k], pos, x);
  }

  /** A sink of this capacity, holding used bytes, has room for n more. */
  predicate Fits(capacity: Option<nat>, used: nat, n: nat) {
    capacity.None? || used + n <= capacity.value
  }

  /**
   * What writing bytes to a sink that held before leaves in it: all of
   * bytes appended when they fit; otherwise ShortWrite, with at most a
   * prefix of them appended.
   */
  predicate Appended(before: seq<uint8>, capacity: Option<nat>, after: seq<uint8>,
                     bytes: seq<uint8>, err: Option<Error>) {
    if Fits(capacity, |before|, |bytes|) then err == None && after == before + bytes
    else err == Some(ShortWrite) && before <= after <= before + bytes
  }

  /** Writing a then b, with a written in full, is writing a + b. */
  lemma AppendedThen(before: seq<uint8>, capacity: Option<nat>, mid: seq<uint8>, a: seq<uint8>,
                     after: seq<uint8>, b: seq<uint8>, err: Option<Error>)
    requires Appended(before, capacity, mid, a, None)
    requires Appended(mid, capacity, after, b, err)
    ensures Appended(before, capacity, after, a + b, err)
  {
    assert before + a + b == before + (a + b);
    if !Fits(capacity, |mid|, |b|) {
      assert (before + (a + b))[..|mid|] == mid;
      assert after[..|mid|] == mid;
      assert after[..|before|] == before;
    }
  }

  /** A write of a that failed is a failed write of a followed by anything. */
  lemma AppendedStop(before: seq<uint8>, capacity: Option<nat>, after: seq<uint8>, a: seq<uint8>,
                     err: Option<Error>, b: seq<uint8>)
    requires Appended(before, capacity, after, a, err)
    requires err.Some?
    ensures Appended(before, capacity, after, a + b, err)
  {
    assert (before + (a + b))[..|before + a|] == before + a;
  }

  /**
   * A byte sink: a bytes.Buffer when capacity is None, a writer over a
   * fixed buffer of that many bytes otherwise. A write that does not fit
   * fails with ShortWrite and leaves the sink as it was.
   */
  class Sink {
    var data: seq<uint8>
    const capacity: Option<nat>

    constructor Buffer()
      ensures data == [] && capacity == None
    {
      data := [];
      capacity := None;
    }

    constructor Fixed(n: nat)
      ensures data == [] && capacity == Some(n)
    {
      data := [];
      capacity := Some(n);
    }

    method Write(chunk: seq<uint8>) returns (err: Option<Error>)
      modifies this
      ensures Appended(old(data), capacity, data, chunk, err)
      ensures err.Some? ==> data == old(data)
    {
      if Fits(capacity, |data|, |chunk|) {
        data := data + chunk;
        err := None;
      } else {
        err := Some(ShortWrite);
      }
    }
  }

  /** What an encoder that writes bytes to w, stopping at the first failed write, leaves behind. */
  twostate predicate Wrote(w: Sink, new bytes: seq<uint8>, new err: Option<Error>)
    reads w
  {
    Appended(old(w.data), w.capacity, w.data, bytes, err)
  }
}
