/** The multiplexer's own frame format and its output queue. */
module ProtocolMultiplexer {
  import opened Wrappers
  import opened Bytes
  import opened Sequences

  /** Frame types are the codes 1 to 4: data, close, error, window. */
  datatype Frame = Frame(kind: byte, connectionId: seq<byte>, payload: seq<byte>)

  const TCP_DATA: byte := 0x01
  const TCP_CLOSE: byte := 0x02
  const TCP_ERROR: byte := 0x03
  const TCP_WINDOW: byte := 0x04

  datatype Failure = TooShort | TruncatedId | TruncatedPayload

  function Serialize(f: Frame): (b: seq<byte>)
    ensures |b| == 7 + |f.connectionId| + |f.payload|
  {
    [f.kind] + Be16(|f.connectionId| % 0x1_0000) + f.connectionId + Be32(|f.payload| % TWO_32) + f.payload
  }

  function Deserialize(b: seq<byte>): Result<Frame, Failure> {
    if |b| < 7 then Err(TooShort)
    else
      var idLength: int := FromBe16(b[1..3]);
      if 3 + idLength + 4 > |b| then Err(TruncatedId)
      else
        var offset := 3 + idLength + 4;
        var payloadLength: int := FromBe32(b[offset - 4..offset]);
        if offset + payloadLength > |b| then Err(TruncatedPayload)
        else Ok(Frame(b[0], b[3..3 + idLength], b[offset..offset + payloadLength]))
  }

  /** The lengths survive their 16- and 32-bit fields. */
  predicate Encodable(f: Frame) {
    |f.connectionId| < 0x1_0000 && |f.payload| < TWO_32
  }

  lemma IdField(f: Frame, rest: seq<byte>)
    ensures var b := Serialize(f) + rest;
            FromBe16(b[1..3]) == |f.connectionId| % 0x1_0000 && b[0] == f.kind
  {
    var length := Be16(|f.connectionId| % 0x1_0000);
    Be16Inverse(|f.connectionId| % 0x1_0000);
    var tail := f.connectionId + Be32(|f.payload| % TWO_32) + f.payload + rest;
    assert Serialize(f) + rest == [f.kind] + length + tail;
    Middle([f.kind], length, tail);
  }

  lemma PayloadField(f: Frame, rest: seq<byte>)
    ensures var b := Serialize(f) + rest;
            var offset := 7 + |f.connectionId|;
            && b[3..3 + |f.connectionId|] == f.connectionId
            && FromBe32(b[offset - 4..offset]) == |f.payload| % TWO_32
            && b[offset..offset + |f.payload|] == f.payload
  {
    var idLength, length := Be16(|f.connectionId| % 0x1_0000), Be32(|f.payload| % TWO_32);
    Be32Inverse(|f.payload| % TWO_32);
    var b := Serialize(f) + rest;
    var head := [f.kind] + idLength;
    assert |head| == 3 && |length| == 4;
    assert b == head + f.connectionId + (length + f.payload + rest);
    Middle(head, f.connectionId, length + f.payload + rest);
    assert b == (head + f.connectionId) + length + (f.payload + rest);
    Middle(head + f.connectionId, length, f.payload + rest);
    assert b == (head + f.connectionId + length) + f.payload + rest;
    Middle(head + f.connectionId + length, f.payload, rest);
  }

  lemma DeserializedFits(b: seq<byte>)
    ensures Deserialize(b).Ok? ==> Encodable(Deserialize(b).value)
  {
    hide FromBe16, FromBe32;
  }

  lemma FittingFrameIsRead(f: Frame, rest: seq<byte>)
    requires Encodable(f)
    ensures Deserialize(Serialize(f) + rest) == Ok(f)
  {
    hide FromBe16, FromBe32, Be16, Be32;
    IdField(f, rest);
    PayloadField(f, rest);
    assert |Serialize(f)| == 7 + |f.connectionId| + |f.payload| by { SerializedLength(f); }
    hide Serialize;
  }

  lemma SerializedLength(f: Frame)
    ensures |Serialize(f)| == 7 + |f.connectionId| + |f.payload|
  {
  }

  /** A serialized frame at the front of a buffer is read back exactly when its lengths fit. */
  lemma DeserializeInvertsSerialize(f: Frame, rest: seq<byte>)
    ensures Deserialize(Serialize(f) + rest) == Ok(f) <==> Encodable(f)
  {
    hide Deserialize, Serialize;
    DeserializedFits(Serialize(f) + rest);
    if Encodable(f) { FittingFrameIsRead(f, rest); }
  }

  /** A frame byte by byte: its kind, the length of its id in two bytes and the id, the length of its
      payload in four bytes and the payload, lengths most significant byte first. */
  lemma FrameIsLaidOut(f: Frame)
    ensures var b, n := Serialize(f), |f.connectionId|;
            && |b| == 7 + n + |f.payload| && b[0] == f.kind
            && b[1] as int * 256 + b[2] as int == n % 0x1_0000 && b[3..3 + n] == f.connectionId
            && b[3 + n] as int * 0x100_0000 + b[4 + n] as int * 0x1_0000 + b[5 + n] as int * 0x100 + b[6 + n] as int
               == |f.payload| % 0x1_0000_0000
            && b[7 + n..] == f.payload
  {
    var b, n := Serialize(f), |f.connectionId|;
    IdField(f, []);
    PayloadField(f, []);
    SerializedLength(f);
    Whole(b);
    var word := b[3 + n..7 + n];
    assert word[..2] == [b[3 + n], b[4 + n]] && word[2..] == [b[5 + n], b[6 + n]];
    assert b[1..3] == [b[1], b[2]];
    hide Serialize, Be16, Be32;
  }

  /** A frame that has not arrived whole is refused, by what is missing. */
  lemma PrefixIsRefused(f: Frame, n: nat)
    requires Encodable(f) && n < |Serialize(f)|
    ensures Deserialize(Serialize(f)[..n]) == Err(if n < 7 then TooShort
                                                  else if n < 7 + |f.connectionId| then TruncatedId
                                                  else TruncatedPayload)
  {
    var b, k := Serialize(f), |f.connectionId|;
    IdField(f, []);
    PayloadField(f, []);
    SerializedLength(f);
    Whole(b);
    hide Serialize, FromBe16, FromBe32;
    if n >= 7 {
      assert b[..n][1..3] == b[1..3];
      if n >= 7 + k { assert b[..n][3 + k..7 + k] == b[3 + k..7 + k]; }
    }
  }

  // ----- the queue -----

  function SerializeAll(fs: seq<Frame>): seq<byte> {
    if fs == [] then [] else Serialize(fs[0]) + SerializeAll(fs[1..])
  }

  /** Reads frames until the buffer is used up. */
  function DecodeAll(b: seq<byte>): Option<seq<Frame>>
    decreases |b|
  {
    if b == [] then Some([])
    else
      match Deserialize(b)
      case Err(_) => None
      case Ok(f) =>
        match DecodeAll(b[7 + |f.connectionId| + |f.payload|..])
        case None => None
        case Some(rest) => Some([f] + rest)
  }

  /** A sequence of frames is read back exactly when every frame's lengths fit. */
  lemma {:induction false} DecodeInvertsSerializeAll(fs: seq<Frame>)
    ensures DecodeAll(SerializeAll(fs)) == Some(fs) <==> forall f :: f in fs ==> Encodable(f)
  {
    if fs != [] {
      hide Deserialize, Serialize;
      var first, rest := Serialize(fs[0]), SerializeAll(fs[1..]);
      DeserializeInvertsSerialize(fs[0], rest);
      DecodeInvertsSerializeAll(fs[1..]);
      SplitConcat(first, rest);
      assert fs == [fs[0]] + fs[1..];
      if DecodeAll(first + rest) == Some(fs) {
        assert Deserialize(first + rest).value == fs[0];
      }
    }
  }

  lemma {:induction false} SerializeAllAppend(fs: seq<Frame>, f: Frame)
    ensures SerializeAll(fs + [f]) == SerializeAll(fs) + Serialize(f)
  {
    if fs == [] {
      assert [f][1..] == [];
      Whole(Serialize(f));
    } else {
      assert (fs + [f])[1..] == fs[1..] + [f];
      SerializeAllAppend(fs[1..], f);
      Associative(Serialize(fs[0]), SerializeAll(fs[1..]), Serialize(f));
    }
  }

  class ProtocolMultiplexer {
    var outputBuffer: seq<byte>
    /** The frames queued since the buffer was last drained. */
    ghost var queued: seq<Frame>

    ghost predicate Valid()
      reads this
    {
      outputBuffer == SerializeAll(queued)
    }

    constructor ()
      ensures Valid() && queued == []
    {
      outputBuffer, queued := [], [];
    }

    method Queue(f: Frame)
      requires Valid()
      modifies this
      ensures Valid() && queued == old(queued) + [f]
    {
      SerializeAllAppend(queued, f);
      outputBuffer := outputBuffer + Serialize(f);
      queued := queued + [f];
    }

    method SendTcpData(connectionId: seq<byte>, data: seq<byte>) returns (ok: bool)
      requires Valid()
      modifies this
      ensures Valid() && ok && queued == old(queued) + [Frame(0x01, connectionId, data)]
    {
      Queue(Frame(TCP_DATA, connectionId, data));
      return true;
    }

    method SendTcpClose(connectionId: seq<byte>) returns (ok: bool)
      requires Valid()
      modifies this
      ensures Valid() && ok && queued == old(queued) + [Frame(0x02, connectionId, [])]
    {
      Queue(Frame(TCP_CLOSE, connectionId, []));
      return true;
    }

    method SendTcpError(connectionId: seq<byte>, message: seq<byte>) returns (ok: bool)
      requires Valid()
      modifies this
      ensures Valid() && ok && queued == old(queued) + [Frame(0x03, connectionId, message)]
    {
      Queue(Frame(TCP_ERROR, connectionId, message));
      return true;
    }

    /** The window size travels as four bytes, most significant first. */
    method SendTcpWindow(connectionId: seq<byte>, windowSize: u32) returns (ok: bool)
      requires Valid()
      modifies this
      ensures Valid() && ok && exists p :: |p| == 4 && FromBe32(p) == windowSize
                                      && queued == old(queued) + [Frame(0x04, connectionId, p)]
    {
      Be32Inverse(windowSize);
      Queue(Frame(TCP_WINDOW, connectionId, Be32(windowSize)));
      return true;
    }

    /** Draining hands out bytes that decode to exactly the frames queued, in order. */
    method GetOutputData() returns (output: seq<byte>)
      requires Valid()
      modifies this
      ensures Valid() && queued == [] && output == SerializeAll(old(queued))
      ensures DecodeAll(output) == Some(old(queued)) <==> forall f :: f in old(queued) ==> Encodable(f)
    {
      output := outputBuffer;
      DecodeInvertsSerializeAll(queued);
      outputBuffer, queued := [], [];
    }
  }

  // ----- runs -----

  datatype Operation = Send(frame: Frame) | Drain

  datatype Queue = Queue(pending: seq<byte>, outputs: seq<seq<byte>>)

  function RunQueue(ops: seq<Operation>): Queue {
    if ops == [] then Queue([], [])
    else
      var q := RunQueue(ops[..|ops| - 1]);
      match ops[|ops| - 1]
      case Send(f) => q.(pending := q.pending + Serialize(f))
      case Drain => Queue([], q.outputs + [q.pending])
  }

  function Sent(ops: seq<Operation>): seq<Frame> {
    if ops == [] then []
    else Sent(ops[..|ops| - 1]) + (match ops[|ops| - 1] case Send(f) => [f] case Drain => [])
  }

  lemma {:induction false} OutputsAreSent(ops: seq<Operation>)
    ensures Concat(RunQueue(ops).outputs) + RunQueue(ops).pending == SerializeAll(Sent(ops))
  {
    if ops != [] {
      var front := ops[..|ops| - 1];
      var q := RunQueue(front);
      OutputsAreSent(front);
      match ops[|ops| - 1]
      case Send(f) =>
        SerializeAllAppend(Sent(front), f);
        Associative(Concat(q.outputs), q.pending, Serialize(f));
      case Drain =>
        ConcatAppend(q.outputs, q.pending);
        Whole(Sent(front));
        Whole(Concat(q.outputs + [q.pending]));
    }
  }

  /** Whenever the queue is drained and however often, all output so far, followed by what is still
      queued, decodes to exactly the frames sent, in order, if and only if their lengths fit. */
  lemma QueueDecodesUniquely(ops: seq<Operation>)
    ensures DecodeAll(Concat(RunQueue(ops).outputs) + RunQueue(ops).pending) == Some(Sent(ops))
            <==> forall f :: f in Sent(ops) ==> Encodable(f)
  {
    OutputsAreSent(ops);
    DecodeInvertsSerializeAll(Sent(ops));
  }
}
