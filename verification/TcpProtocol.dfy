/** The binary frames of the TCP tunnel and their encoders and decoders.

    `hton16`/`hton32` depend on the machine, so the encoders take a `ByteOrder`: any pair of
    functions that undo themselves. */
module TcpProtocol {
  import opened Wrappers
  import opened Bytes
  import opened Sequences

  type Uuid = s: seq<byte> | |s| == 16 witness [0, 0, 0, 0, 0, 0, 0, 0, 0, 0, 0, 0, 0, 0, 0, 0]

  const TCP_OPEN: byte := 0x10
  const TCP_DATA: byte := 0x11
  const TCP_CLOSE: byte := 0x12
  const TCP_ERROR: byte := 0x13
  const TCP_ACK: byte := 0x14

  datatype Frame =
    | Open(id: Uuid, port: u16)
    | Data(id: Uuid, sequence: u32, payload: seq<byte>)
    | Close(id: Uuid, reason: u16)
    | Error(id: Uuid, code: u16, message: seq<byte>)
    | Ack(id: Uuid, acknowledged: u32, window: u32)

  /** OutOfBounds: the C++ length test overflowed, so the copy runs past the buffer. */
  datatype DecodeFailure = TooSmall | InvalidType | Incomplete | OutOfBounds

  datatype ByteOrder = ByteOrder(swap16: u16 -> u16, swap32: u32 -> u32)

  ghost predicate Involutive(o: ByteOrder) {
    && (forall x: u16 :: o.swap16(o.swap16(x)) == x)
    && (forall x: u32 :: o.swap32(o.swap32(x)) == x)
  }

  // ----- encoders -----

  function EncodeOpen(id: Uuid, port: u16, o: ByteOrder): seq<byte> {
    [TCP_OPEN] + id + Be16(o.swap16(port))
  }

  function EncodeData(id: Uuid, sequence: u32, payload: seq<byte>): seq<byte> {
    [TCP_DATA] + id + Be32(sequence) + Be32(|payload| % TWO_32) + payload
  }

  function EncodeClose(id: Uuid, reason: u16, o: ByteOrder): seq<byte> {
    [TCP_CLOSE] + id + Be16(o.swap16(reason))
  }

  function EncodeError(id: Uuid, code: u16, message: seq<byte>, o: ByteOrder): seq<byte> {
    [TCP_ERROR] + id + Be16(o.swap16(code)) + Be16(o.swap16(|message| % 0x1_0000)) + message
  }

  function EncodeAck(id: Uuid, acknowledged: u32, window: u32, o: ByteOrder): seq<byte> {
    [TCP_ACK] + id + Be32(o.swap32(acknowledged)) + Be32(o.swap32(window))
  }

  function Encode(f: Frame, o: ByteOrder): (b: seq<byte>)
    ensures |b| >= 19
  {
    match f
    case Open(id, port) => EncodeOpen(id, port, o)
    case Data(id, sequence, payload) => EncodeData(id, sequence, payload)
    case Close(id, reason) => EncodeClose(id, reason, o)
    case Error(id, code, message) => EncodeError(id, code, message, o)
    case Ack(id, acknowledged, window) => EncodeAck(id, acknowledged, window, o)
  }

  // ----- the decoders of src/proxy/tcp_protocol.cpp -----

  function DecodeOpen(b: seq<byte>, o: ByteOrder): Result<Frame, DecodeFailure> {
    if |b| < 19 then Err(TooSmall)
    else if b[0] != TCP_OPEN then Err(InvalidType)
    else Ok(Open(b[1..17], o.swap16(FromBe16(b[17..19]))))
  }

  /** The sum `25 + data_length` is taken in 32 bits. */
  function DecodeData(b: seq<byte>, o: ByteOrder): Result<Frame, DecodeFailure> {
    if |b| < 25 then Err(TooSmall)
    else if b[0] != TCP_DATA then Err(InvalidType)
    else
      var length: int := o.swap32(FromBe32(b[21..25]));
      if |b| < (25 + length) % TWO_32 then Err(Incomplete)
      else if |b| < 25 + length then Err(OutOfBounds)
      else Ok(Data(b[1..17], o.swap32(FromBe32(b[17..21])), b[25..25 + length]))
  }

  function DecodeClose(b: seq<byte>, o: ByteOrder): Result<Frame, DecodeFailure> {
    if |b| < 19 then Err(TooSmall)
    else if b[0] != TCP_CLOSE then Err(InvalidType)
    else Ok(Close(b[1..17], o.swap16(FromBe16(b[17..19]))))
  }

  function DecodeError(b: seq<byte>, o: ByteOrder): Result<Frame, DecodeFailure> {
    if |b| < 21 then Err(TooSmall)
    else if b[0] != TCP_ERROR then Err(InvalidType)
    else
      var length: int := o.swap16(FromBe16(b[19..21]));
      if |b| < 21 + length then Err(Incomplete)
      else Ok(Error(b[1..17], o.swap16(FromBe16(b[17..19])), b[21..21 + length]))
  }

  function DecodeAck(b: seq<byte>, o: ByteOrder): Result<Frame, DecodeFailure> {
    if |b| < 25 then Err(TooSmall)
    else if b[0] != TCP_ACK then Err(InvalidType)
    else Ok(Ack(b[1..17], o.swap32(FromBe32(b[17..21])), o.swap32(FromBe32(b[21..25]))))
  }

  function Decode(b: seq<byte>, o: ByteOrder): Result<Frame, DecodeFailure> {
    if |b| < 1 then Err(TooSmall)
    else if b[0] == TCP_OPEN then DecodeOpen(b, o)
    else if b[0] == TCP_DATA then DecodeData(b, o)
    else if b[0] == TCP_CLOSE then DecodeClose(b, o)
    else if b[0] == TCP_ERROR then DecodeError(b, o)
    else if b[0] == TCP_ACK then DecodeAck(b, o)
    else Err(InvalidType)
  }

  /** What each decoder needs of the frame: the length fields must survive their fixed width, and
      the DATA decoder swaps fields that the DATA encoder never swapped. */
  predicate Recoverable(f: Frame, o: ByteOrder) {
    match f
    case Data(_, sequence, payload) =>
      |payload| < TWO_32 && o.swap32(sequence) == sequence && o.swap32(|payload|) == |payload|
    case Error(_, _, message) => |message| < 0x1_0000
    case _ => true
  }

  lemma DataHeader(id: Uuid, sequence: u32, payload: seq<byte>)
    ensures var b := EncodeData(id, sequence, payload);
            && |b| == 25 + |payload| && b[0] == TCP_DATA && b[1..17] == id && b[25..] == payload
            && FromBe32(b[17..21]) == sequence
            && FromBe32(b[21..25]) == |payload| % TWO_32
  {
    var b := EncodeData(id, sequence, payload);
    Be32Inverse(sequence);
    Be32Inverse(|payload| % TWO_32);
    assert b[17..21] == Be32(sequence);
    assert b[21..25] == Be32(|payload| % TWO_32);
  }

  lemma ErrorHeader(id: Uuid, code: u16, message: seq<byte>, o: ByteOrder)
    ensures var b := EncodeError(id, code, message, o);
            && |b| == 21 + |message| && b[0] == TCP_ERROR && b[1..17] == id && b[21..] == message
            && FromBe16(b[17..19]) == o.swap16(code)
            && FromBe16(b[19..21]) == o.swap16(|message| % 0x1_0000)
  {
    var b := EncodeError(id, code, message, o);
    Be16Inverse(o.swap16(code));
    Be16Inverse(o.swap16(|message| % 0x1_0000));
    assert b[17..19] == Be16(o.swap16(code));
    assert b[19..21] == Be16(o.swap16(|message| % 0x1_0000));
  }

  lemma ShortRoundTrip(id: Uuid, value: u16, o: ByteOrder)
    requires Involutive(o)
    ensures DecodeOpen(EncodeOpen(id, value, o), o) == Ok(Open(id, value))
    ensures DecodeClose(EncodeClose(id, value, o), o) == Ok(Close(id, value))
  {
    var open, close := EncodeOpen(id, value, o), EncodeClose(id, value, o);
    Be16Inverse(o.swap16(value));
    assert open[17..19] == Be16(o.swap16(value)) && open[1..17] == id;
    assert close[17..19] == Be16(o.swap16(value)) && close[1..17] == id;
    assert o.swap16(o.swap16(value)) == value;
  }

  lemma AckRoundTrip(id: Uuid, acknowledged: u32, window: u32, o: ByteOrder)
    requires Involutive(o)
    ensures DecodeAck(EncodeAck(id, acknowledged, window, o), o) == Ok(Ack(id, acknowledged, window))
  {
    var b := EncodeAck(id, acknowledged, window, o);
    Be32Inverse(o.swap32(acknowledged));
    Be32Inverse(o.swap32(window));
    var head, first, last := [TCP_ACK] + id, Be32(o.swap32(acknowledged)), Be32(o.swap32(window));
    assert |first| == 4 && |last| == 4;
    Middle([TCP_ACK], id, first + last);
    Associative([TCP_ACK] + id, first, last);
    Middle(head, first, last);
    Whole(head + first + last);
    Middle(head + first, last, []);
    assert o.swap32(o.swap32(acknowledged)) == acknowledged && o.swap32(o.swap32(window)) == window;
  }

  lemma DataRoundTrip(id: Uuid, sequence: u32, payload: seq<byte>, o: ByteOrder)
    requires Involutive(o)
    ensures DecodeData(EncodeData(id, sequence, payload), o) == Ok(Data(id, sequence, payload))
            <==> |payload| < TWO_32 && o.swap32(sequence) == sequence && o.swap32(|payload|) == |payload|
  {
    DataHeader(id, sequence, payload);
    var b := EncodeData(id, sequence, payload);
    var length: int := o.swap32(|payload| % TWO_32);
    ModAtMost(25 + length);
    if length == |payload| {
      assert o.swap32(length) == |payload| % TWO_32;
      assert b[25..25 + length] == b[25..];
    } else if 25 + length <= |b| {
      assert |b[25..25 + length]| != |payload|;
    }
  }

  lemma ModAtMost(n: nat)
    ensures 0 <= n % TWO_32 <= n
  {
  }

  lemma ErrorRoundTrip(id: Uuid, code: u16, message: seq<byte>, o: ByteOrder)
    requires Involutive(o)
    ensures DecodeError(EncodeError(id, code, message, o), o) == Ok(Error(id, code, message))
            <==> |message| < 0x1_0000
  {
    ErrorHeader(id, code, message, o);
    var b := EncodeError(id, code, message, o);
    var length: int := |message| % 0x1_0000;
    assert |b[21..21 + length]| == length;
    assert b[21..21 + |message|] == b[21..];
  }

  /** Each decoder undoes its encoder exactly on the recoverable frames, whatever the machine. */
  lemma DecodeInvertsEncode(f: Frame, o: ByteOrder)
    requires Involutive(o)
    ensures Decode(Encode(f, o), o) == Ok(f) <==> Recoverable(f, o)
  {
    match f
    case Open(id, port) => ShortRoundTrip(id, port, o);
    case Close(id, reason) => ShortRoundTrip(id, reason, o);
    case Ack(id, acknowledged, window) => AckRoundTrip(id, acknowledged, window, o);
    case Data(id, sequence, payload) => DataRoundTrip(id, sequence, payload, o);
    case Error(id, code, message) => ErrorRoundTrip(id, code, message, o);
  }

  // ----- the decoder written inline by both receivers -----

  datatype InlinePayload = Missing | Payload(bytes: seq<byte>) | Overrun

  /** Payload of a frame already known to be DATA, read without `swap`. */
  function InlineData(b: seq<byte>): InlinePayload {
    if |b| < 25 then Missing
    else
      var length: int := FromBe32(b[21..25]);
      if |b| < (25 + length) % TWO_32 then Missing
      else if |b| < 25 + length then Overrun
      else Payload(b[25..25 + length])
  }

  /** Both receivers recover the payload of an encoded DATA frame, with no assumption on the machine,
      if and only if its length fits the 32-bit field; the wrapped length check never gets in the way. */
  lemma InlineDataInvertsEncode(id: Uuid, sequence: u32, payload: seq<byte>)
    ensures InlineData(EncodeData(id, sequence, payload)) == Payload(payload) <==> |payload| < TWO_32
  {
    DataHeader(id, sequence, payload);
    var b, length := EncodeData(id, sequence, payload), |payload| % TWO_32;
    ModAtMost(25 + length);
    ModAtMost(|payload|);
    assert |b[25..25 + length]| == length;
    if |payload| < TWO_32 { assert b[25..25 + length] == b[25..]; }
  }

  /** The length test does its job exactly as long as `25 + length` fits 32 bits: then a payload is taken
      if and only if all of it is there. Beyond that nothing is ever missing, and a buffer that does not
      hold the payload is read past its end. */
  lemma InlineLengthTest(b: seq<byte>)
    requires |b| >= 25
    ensures var length: int := FromBe32(b[21..25]);
            && (InlineData(b) == Missing <==> length < 0x1_0000_0000 - 25 && |b| < 25 + length)
            && (InlineData(b) == Overrun <==> length >= 0x1_0000_0000 - 25 && |b| < 25 + length)
            && (InlineData(b).Payload? <==> |b| >= 25 + length)
            && (InlineData(b).Payload? ==> InlineData(b).bytes == b[25..25 + length])
  {
    var length: int := FromBe32(b[21..25]);
    hide FromBe32;
    if length < TWO_32 - 25 {
      assert (25 + length) % TWO_32 == 25 + length;
    } else {
      assert (25 + length) % TWO_32 == 25 + length - TWO_32;
    }
  }

  // ----- machines -----

  datatype Machine = LittleEndian | BigEndian {
    /** `htonl`/`ntohl` on this machine. */
    function Swap32(v: u32): u32 {
      match this
      case LittleEndian => FromBe32(Reverse4(Be32(v)))
      case BigEndian => v
    }

    function Swap16(v: u16): u16 {
      match this
      case LittleEndian => FromBe16([Be16(v)[1], Be16(v)[0]])
      case BigEndian => v
    }

    function Order(): ByteOrder {
      ByteOrder(v => this.Swap16(v), v => this.Swap32(v))
    }

    /** The bytes of an integer in memory, lowest address first. */
    function Memory32(v: u32): seq<byte> {
      match this
      case LittleEndian => Reverse4(Be32(v))
      case BigEndian => Be32(v)
    }

    function Memory16(v: u16): seq<byte> {
      match this
      case LittleEndian => [Be16(v)[1], Be16(v)[0]]
      case BigEndian => Be16(v)
    }
  }

  function Reverse4(b: seq<byte>): (r: seq<byte>)
    requires |b| == 4
    ensures |r| == 4
  {
    [b[3], b[2], b[1], b[0]]
  }

  lemma MachinesAreInvolutive(m: Machine)
    ensures Involutive(m.Order())
  {
    forall x: u32 ensures m.Swap32(m.Swap32(x)) == x {
      Be32Inverse(x);
      FromBe32Inverse(Reverse4(Be32(x)));
    }
    forall x: u16 ensures m.Swap16(m.Swap16(x)) == x {
      Be16Inverse(x);
      FromBe16Inverse([Be16(x)[1], Be16(x)[0]]);
    }
  }

  /** On a little-endian machine the DATA decoder misreads even the smallest frame. */
  lemma LittleEndianMisreadsData(id: Uuid)
    ensures LittleEndian.Swap32(1) == 0x100_0000
    ensures DecodeData(EncodeData(id, 1, []), LittleEndian.Order()) != Ok(Data(id, 1, []))
  {
    assert Be32(1) == [0, 0, 0, 1];
    assert Reverse4(Be32(1)) == [1, 0, 0, 0];
    assert Reverse4(Be32(1))[..2] == [1, 0] && Reverse4(Be32(1))[2..] == [0, 0];
    MachinesAreInvolutive(LittleEndian);
    DataRoundTrip(id, 1, [], LittleEndian.Order());
  }

  /** The agent's DATA frame: lengths go through `htonl` and are then copied out of memory. */
  method AgentBuildData(m: Machine, id: Uuid, payload: seq<byte>, sequence: u32) returns (frame: seq<byte>)
    ensures frame == EncodeData(id, sequence, payload)
  {
    frame := [TCP_DATA];
    frame := frame + id;
    frame := frame + m.Memory32(m.Swap32(sequence));
    frame := frame + m.Memory32(m.Swap32(|payload| % TWO_32));
    frame := frame + payload;
    FromBe32Inverse(Reverse4(Be32(sequence)));
    FromBe32Inverse(Reverse4(Be32(|payload| % TWO_32)));
  }

  /** The agent's CLOSE frame carries the reason most significant byte first on every machine. */
  method AgentBuildClose(m: Machine, id: Uuid, reason: u16) returns (frame: seq<byte>)
    ensures frame == [TCP_CLOSE] + id + Be16(reason)
  {
    frame := [TCP_CLOSE];
    frame := frame + id;
    frame := frame + m.Memory16(m.Swap16(reason));
    FromBe16Inverse([Be16(reason)[1], Be16(reason)[0]]);
  }
}
