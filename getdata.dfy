/**
 * The getdata message: a list of at most MaxInvPerMsg inventory vectors,
 * built up in place with AddInvVect and carried on the wire as a varint
 * count followed by the vectors, each a fixed 32-byte hash.
 */
module GetData {
  import opened Primitives
  import opened Stream
  import opened WireConstants

  type ShaHash = s: seq<uint8> | |s| == MaxInvVectPayload witness seq(32, _ => 0)

  /** An inventory vector: the hash of the object asked for. */
  datatype InvVect = InvVect(hash: ShaHash)

  /** Reads one inventory vector at pos. */
  function ReadInvVect(s: seq<uint8>, pos: nat): (r: Result<Parsed<InvVect>>)
    requires pos <= |s|
    ensures r.Ok? <==> pos + MaxInvVectPayload <= |s|
    ensures r.Ok? ==> r.value == Parsed(InvVect(s[pos..pos + MaxInvVectPayload]), pos + MaxInvVectPayload)
    ensures r.Err? ==> r.error == (if pos == |s| then EOF else UnexpectedEOF)
  {
    var hash :- ReadFull(s, pos, MaxInvVectPayload);
    Ok(Parsed(InvVect(hash), pos + MaxInvVectPayload))
  }

  /** The vectors written one after another: byte i is byte i % 32 of vector i / 32. */
  function InvListBytes(l: seq<InvVect>): (r: seq<uint8>)
    ensures |r| == MaxInvVectPayload * |l|
  {
    seq(MaxInvVectPayload * |l|, i requires 0 <= i < MaxInvVectPayload * |l| =>
      l[i / MaxInvVectPayload].hash[i % MaxInvVectPayload])
  }

  /** The j-th vector of a list lies at 32 * j in its written form. */
  lemma InvListBytesAt(l: seq<InvVect>, j: nat)
    requires j < |l|
    ensures InvListBytes(l)[MaxInvVectPayload * j..MaxInvVectPayload * (j + 1)] == l[j].hash
  {
    var t := InvListBytes(l);
    forall i | 0 <= i < MaxInvVectPayload
      ensures t[MaxInvVectPayload * j + i] == l[j].hash[i]
    {
      assert (MaxInvVectPayload * j + i) / MaxInvVectPayload == j;
      assert (MaxInvVectPayload * j + i) % MaxInvVectPayload == i;
    }
  }

  /** Writing one more vector appends its hash. */
  lemma InvListBytesSnoc(l: seq<InvVect>, iv: InvVect)
    ensures InvListBytes(l + [iv]) == InvListBytes(l) + iv.hash
  {
    var t, u := InvListBytes(l + [iv]), InvListBytes(l) + iv.hash;
    forall i | 0 <= i < |t|
      ensures t[i] == u[i]
    {
      if i >= MaxInvVectPayload * |l| {
        assert i / MaxInvVectPayload == |l|;
        assert i % MaxInvVectPayload == i - MaxInvVectPayload * |l|;
      }
    }
  }

  /** The wire form of a getdata message: the count, then the vectors. */
  function GetDataBytes(l: seq<InvVect>): seq<uint8>
    requires |l| <= MaxInvPerMsg
  {
    VarIntBytes(|l|) + InvListBytes(l)
  }

  /** The k vectors that lie one after another from pos. */
  function ItemsAt(s: seq<uint8>, pos: nat, k: nat): (r: seq<InvVect>)
    requires pos + MaxInvVectPayload * k <= |s|
    ensures |r| == k
    ensures forall j :: 0 <= j < k ==>
      r[j].hash == s[pos + MaxInvVectPayload * j..pos + MaxInvVectPayload * (j + 1)]
  {
    seq(k, j requires 0 <= j < k => InvVect(s[pos + MaxInvVectPayload * j..pos + MaxInvVectPayload * (j + 1)]))
  }

  function Min(a: nat, b: nat): nat {
    if a <= b then a else b
  }

  /**
   * What decoding s does to a message whose list is prior: the new list
   * and the error. A failed count read or a count above MaxInvPerMsg
   * leaves the list alone; otherwise the list is replaced by the vectors
   * that could be read, and the read error, if any, is EOF when the
   * input ends exactly between two vectors.
   */
  function DecodeOutcome(s: seq<uint8>, prior: seq<InvVect>): (r: (seq<InvVect>, Option<Error>))
    ensures r.1.None? ==> |r.0| <= MaxInvPerMsg
  {
    match ReadVarInt(s, 0)
    case Err(e) => (prior, Some(e))
    case Ok(count) =>
      if count.val > MaxInvPerMsg then (prior, Some(MessageError("MsgGetData.Decode")))
      else
        var k := Min(count.val, (|s| - count.next) / MaxInvVectPayload);
        var items := ItemsAt(s, count.next, k);
        if k == count.val then (items, None)
        else (items, Some(if count.next + MaxInvVectPayload * k == |s| then EOF else UnexpectedEOF))
  }

  class MsgGetData {
    var invList: seq<InvVect>

    /** The capacity reserved for the list when the message was made. */
    const sizeHint: nat

    /** NewMsgGetData: an empty list with room reserved for DefaultInvListAlloc vectors. */
    constructor ()
      ensures invList == [] && sizeHint == DefaultInvListAlloc
    {
      invList := [];
      sizeHint := DefaultInvListAlloc;
    }

    /** NewMsgGetDataSizeHint: an empty list, with the hint capped at MaxInvPerMsg. */
    constructor SizeHint(hint: nat)
      ensures invList == []
      ensures sizeHint <= MaxInvPerMsg
      ensures sizeHint == hint || (hint > MaxInvPerMsg && sizeHint == MaxInvPerMsg)
    {
      var h := hint;
      if h > MaxInvPerMsg {
        h := MaxInvPerMsg;
      }
      invList := [];
      sizeHint := h;
    }

    /** The largest payload a getdata message may have, whatever its list. */
    function MaxPayloadLength(): (n: nat)
      ensures n == MaxVarIntSize + MaxInvPerMsg * MaxInvVectPayload
    {
      MaxVarIntSize + MaxInvPerMsg * MaxInvVectPayload
    }

    /** Appends iv, unless the list is already full. */
    method AddInvVect(iv: InvVect) returns (err: Option<Error>)
      modifies this
      ensures |old(invList)| + 1 > MaxInvPerMsg ==>
        err == Some(MessageError("MsgGetData.AddInvVect")) && invList == old(invList)
      ensures |old(invList)| + 1 <= MaxInvPerMsg ==> err == None && invList == old(invList) + [iv]
    {
      if |invList| + 1 > MaxInvPerMsg {
        return Some(MessageError("MsgGetData.AddInvVect"));
      }
      invList := invList + [iv];
      err := None;
    }

    /**
     * Decode: reads the count, refuses one above MaxInvPerMsg, then
     * replaces the list and appends the vectors as they are read,
     * stopping at the first read error.
     */
    method Decode(input: seq<uint8>) returns (err: Option<Error>)
      modifies this
      ensures (invList, err) == DecodeOutcome(input, old(invList))
    {
      var count := ReadVarInt(input, 0);
      if count.Err? {
        return Some(count.error);
      }
      if count.value.val > MaxInvPerMsg {
        return Some(MessageError("MsgGetData.Decode"));
      }
      var n, start := count.value.val, count.value.next;
      invList := [];
      var pos, i := start, 0;
      while i < n
        invariant i <= n
        invariant pos == start + MaxInvVectPayload * i <= |input|
        invariant invList == ItemsAt(input, start, i)
      {
        var iv := ReadInvVect(input, pos);
        if iv.Err? {
          assert (|input| - start) / MaxInvVectPayload == i;
          return Some(iv.error);
        }
        var added := AddInvVect(iv.value.val);
        assert added == None;
        assert ItemsAt(input, start, i + 1) == ItemsAt(input, start, i) + [iv.value.val];
        pos, i := iv.value.next, i + 1;
      }
      assert Min(n, (|input| - start) / MaxInvVectPayload) == n;
      err := None;
    }

    /**
     * Encode: refuses a list longer than MaxInvPerMsg, otherwise writes
     * the count, then each vector in list order, stopping at the first
     * write that fails.
     */
    method Encode(w: Sink) returns (err: Option<Error>)
      modifies w
      ensures |invList| > MaxInvPerMsg ==>
        err == Some(MessageError("MsgGetData.Encode")) && w.data == old(w.data)
      ensures |invList| <= MaxInvPerMsg ==> Wrote(w, GetDataBytes(invList), err)
      ensures |invList| <= MaxInvPerMsg && err.Some? ==>
        w.data == old(w.data)
        || exists j :: 0 <= j < |invList|
                       && w.data == old(w.data) + VarIntBytes(|invList|) + InvListBytes(invList[..j])
    {
      if |invList| > MaxInvPerMsg {
        return Some(MessageError("MsgGetData.Encode"));
      }
      ghost var start := w.data;
      var head := VarIntBytes(|invList|);
      err := w.Write(head);
      if err.Some? {
        AppendedStop(start, w.capacity, w.data, head, err, InvListBytes(invList));
        return;
      }
      var i := 0;
      while i < |invList|
        invariant i <= |invList|
        invariant err == None
        invariant Appended(start, w.capacity, w.data, head + InvListBytes(invList[..i]), None)
      {
        ghost var mid := w.data;
        err := w.Write(invList[i].hash);
        WroteVector(start, w.capacity, mid, w.data, head, invList, i, err);
        if err.Some? {
          assert w.data == start + head + InvListBytes(invList[..i]);
          return;
        }
        i := i + 1;
      }
      assert invList[..i] == invList;
      assert GetDataBytes(invList) == head + InvListBytes(invList);
    }
  }

  /**
   * One more vector written after the count and the first i vectors: the
   * first i + 1 are written, or, when the write failed, the encoding of the
   * whole list stopped there.
   */
  lemma WroteVector(start: seq<uint8>, capacity: Option<nat>, mid: seq<uint8>, after: seq<uint8>,
                    head: seq<uint8>, l: seq<InvVect>, i: nat, err: Option<Error>)
    requires i < |l|
    requires Appended(start, capacity, mid, head + InvListBytes(l[..i]), None)
    requires Appended(mid, capacity, after, l[i].hash, err)
    ensures err.None? ==> Appended(start, capacity, after, head + InvListBytes(l[..i + 1]), None)
    ensures err.Some? ==> Appended(start, capacity, after, head + InvListBytes(l), err)
  {
    assert l[..i + 1] == l[..i] + [l[i]];
    InvListBytesSnoc(l[..i], l[i]);
    AppendedThen(start, capacity, mid, head + InvListBytes(l[..i]), after, l[i].hash, err);
    assert head + InvListBytes(l[..i]) + l[i].hash == head + InvListBytes(l[..i + 1]);
    if err.Some? {
      AppendedStop(start, capacity, after, head + InvListBytes(l[..i + 1]), err,
                   InvListBytes(l)[MaxInvVectPayload * (i + 1)..]);
      InvListBytesSplit(l, i + 1);
      assert head + InvListBytes(l[..i + 1]) + InvListBytes(l)[MaxInvVectPayload * (i + 1)..]
          == head + InvListBytes(l);
    }
  }

  /** The written form of a list is that of its first k vectors followed by the rest. */
  lemma InvListBytesSplit(l: seq<InvVect>, k: nat)
    requires k <= |l|
    ensures InvListBytes(l[..k]) + InvListBytes(l)[MaxInvVectPayload * k..] == InvListBytes(l)
  {
    InvListBytesPrefix(l, k);
  }

  /** The written form of the first k vectors is the start of the written form of the list. */
  lemma InvListBytesPrefix(l: seq<InvVect>, k: nat)
    requires k <= |l|
    ensures InvListBytes(l)[..MaxInvVectPayload * k] == InvListBytes(l[..k])
  {
    var t, u := InvListBytes(l)[..MaxInvVectPayload * k], InvListBytes(l[..k]);
    forall i | 0 <= i < |u|
      ensures t[i] == u[i]
    {
      assert i / MaxInvVectPayload < k;
    }
  }

  /** A part of what s holds at pos, found in s itself. */
  lemma HoldsAtSlice(s: seq<uint8>, pos: nat, t: seq<uint8>, a: nat, b: nat)
    requires HoldsAt(s, pos, t)
    requires a <= b <= |t|
    ensures s[pos + a..pos + b] == t[a..b]
  {
    forall i | 0 <= i < b - a
      ensures s[pos + a..pos + b][i] == t[a..b][i]
    {
      assert s[pos + a..pos + b][i] == s[pos..pos + |t|][a + i];
    }
  }

  /** The vectors lying one after another from pos are the list they were written from. */
  lemma ItemsAtInvListBytes(s: seq<uint8>, pos: nat, l: seq<InvVect>)
    requires HoldsAt(s, pos, InvListBytes(l))
    ensures ItemsAt(s, pos, |l|) == l
  {
    var items := ItemsAt(s, pos, |l|);
    forall j | 0 <= j < |l|
      ensures items[j] == l[j]
    {
      var a, b := MaxInvVectPayload * j, MaxInvVectPayload * (j + 1);
      assert b == a + 32 <= MaxInvVectPayload * |l|;
      InvListBytesAt(l, j);
      HoldsAtSlice(s, pos, InvListBytes(l), a, b);
      assert items[j].hash == s[pos + a..pos + b];
    }
  }

  /** Where the count and the vectors lie in the wire form of a list. */
  lemma GetDataPieces(l: seq<InvVect>, rest: seq<uint8>)
    requires |l| <= MaxInvPerMsg
    ensures HoldsAt(GetDataBytes(l) + rest, 0, VarIntBytes(|l|))
    ensures HoldsAt(GetDataBytes(l) + rest, |VarIntBytes(|l|)|, InvListBytes(l))
  {
    var head, body := VarIntBytes(|l|), InvListBytes(l);
    assert GetDataBytes(l) + rest == head + (body + rest);
    HoldsAtPrefix(head, body + rest);
    DropPrefix(head, body + rest);
    HoldsAtPrefix(body, rest);
  }

  /**
   * Decoding the wire form of a list of at most MaxInvPerMsg vectors
   * replaces the list by exactly that list, without error.
   */
  lemma GetDataRoundTrip(l: seq<InvVect>, rest: seq<uint8>, prior: seq<InvVect>)
    requires |l| <= MaxInvPerMsg
    ensures DecodeOutcome(GetDataBytes(l) + rest, prior) == (l, None)
  {
    var s := GetDataBytes(l) + rest;
    var c := |VarIntBytes(|l|)|;
    GetDataPieces(l, rest);
    ReadVarIntOfVarIntBytes(s, 0, |l|);
    assert (|s| - c) / MaxInvVectPayload >= |l|;
    ItemsAtInvListBytes(s, c, l);
  }

  /** A count above MaxInvPerMsg is refused before any vector is read, and the list is left alone. */
  lemma DecodeRefusesCount(n: uint64, rest: seq<uint8>, prior: seq<InvVect>)
    requires n > MaxInvPerMsg
    ensures DecodeOutcome(VarIntBytes(n) + rest, prior) == (prior, Some(MessageError("MsgGetData.Decode")))
  {
    HoldsAtPrefix(VarIntBytes(n), rest);
    ReadVarIntOfVarIntBytes(VarIntBytes(n) + rest, 0, n);
  }

  /**
   * The wire form of a list cut off anywhere fails to decode with a read
   * error: inside the count the list is left alone, past it the list holds
   * the vectors that were complete before the cut.
   */
  lemma GetDataTruncated(l: seq<InvVect>, k: nat, prior: seq<InvVect>)
    requires |l| <= MaxInvPerMsg
    requires k < |GetDataBytes(l)|
    ensures var c, r := |VarIntBytes(|l|)|, DecodeOutcome(GetDataBytes(l)[..k], prior);
      && r.1.Some? && IsReadError(r.1.value)
      && r.0 == if k < c then prior else l[..(k - c) / MaxInvVectPayload]
  {
    var s := GetDataBytes(l);
    var c := |VarIntBytes(|l|)|;
    GetDataPieces(l, []);
    assert s + [] == s;
    if k < c {
      ReadVarIntTruncated(s, 0, |l|, k);
    } else {
      ReadVarIntBeforeCut(s, 0, |l|, k);
      ItemsBeforeCut(s, c, l, k);
    }
  }

  /** Cut inside the vectors, the vectors complete before the cut are still there to read. */
  lemma ItemsBeforeCut(s: seq<uint8>, c: nat, l: seq<InvVect>, k: nat)
    requires HoldsAt(s, c, InvListBytes(l))
    requires c <= k < c + MaxInvVectPayload * |l|
    ensures (k - c) / MaxInvVectPayload < |l|
    ensures ItemsAt(s[..k], c, (k - c) / MaxInvVectPayload) == l[..(k - c) / MaxInvVectPayload]
  {
    var m := (k - c) / MaxInvVectPayload;
    InvListBytesPrefix(l, m);
    HoldsAtSlice(s, c, InvListBytes(l), 0, MaxInvVectPayload * m);
    assert HoldsAt(s[..k], c, InvListBytes(l[..m]));
    ItemsAtInvListBytes(s[..k], c, l[..m]);
  }

  /** No list a message may hold has a wire form longer than MaxPayloadLength. */
  lemma GetDataFitsMaxPayload(m: MsgGetData, l: seq<InvVect>)
    requires |l| <= MaxInvPerMsg
    ensures |GetDataBytes(l)| <= m.MaxPayloadLength()
  {
  }

  /** A message's list survives encoding into a buffer and decoding into a fresh message. */
  method GetDataWireRoundTrip(m: MsgGetData) returns (decoded: seq<InvVect>)
    requires |m.invList| <= MaxInvPerMsg
    ensures decoded == m.invList
  {
    var buf := new Sink.Buffer();
    var err := m.Encode(buf);
    assert buf.data == GetDataBytes(m.invList) + [];
    GetDataRoundTrip(m.invList, [], []);
    var out := new MsgGetData();
    err := out.Decode(buf.data);
    decoded := out.invList;
  }
}
