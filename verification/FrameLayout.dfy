/** The bytes of a frame, one by one, and what the decoders make of a buffer that holds more or less than
    one frame. */
module FrameLayout {
  import opened Wrappers
  import opened Bytes
  import opened Sequences
  import opened TcpProtocol

  /** The two bytes at i spell v, most significant first. */
  predicate Spells16(b: seq<byte>, i: nat, v: int) {
    i + 2 <= |b| && b[i] as int * 256 + b[i + 1] as int == v
  }

  predicate Spells32(b: seq<byte>, i: nat, v: int) {
    i + 4 <= |b|
    && b[i] as int * 0x100_0000 + b[i + 1] as int * 0x1_0000 + b[i + 2] as int * 0x100 + b[i + 3] as int == v
  }

  lemma Spelled16(b: seq<byte>, i: nat)
    requires i + 2 <= |b|
    ensures Spells16(b, i, FromBe16(b[i..i + 2]))
  {
  }

  lemma Spelled32(b: seq<byte>, i: nat)
    requires i + 4 <= |b|
    ensures Spells32(b, i, FromBe32(b[i..i + 4]))
  {
    var w := b[i..i + 4];
    assert w[..2] == b[i..i + 2] && w[2..] == b[i + 2..i + 4];
    Spelled16(b, i);
    Spelled16(b, i + 2);
  }

  /** How many bytes a frame takes before its data. */
  function HeaderSize(f: Frame): nat {
    match f
    case Open(_, _) => 19
    case Data(_, _, _) => 25
    case Close(_, _) => 19
    case Error(_, _, _) => 21
    case Ack(_, _, _) => 25
  }

  /** The data behind the header. */
  function Trailer(f: Frame): seq<byte> {
    match f
    case Data(_, _, payload) => payload
    case Error(_, _, message) => message
    case _ => []
  }

  /** The fields between the id and the data, in network order after the machine's swap; DATA is written
      without a swap. */
  predicate Fields(f: Frame, o: ByteOrder, b: seq<byte>) {
    match f
    case Open(_, port) => Spells16(b, 17, o.swap16(port))
    case Data(_, sequence, payload) =>
      Spells32(b, 17, sequence) && Spells32(b, 21, |payload| % 0x1_0000_0000)
    case Close(_, reason) => Spells16(b, 17, o.swap16(reason))
    case Error(_, code, message) =>
      Spells16(b, 17, o.swap16(code)) && Spells16(b, 19, o.swap16(|message| % 0x1_0000))
    case Ack(_, acknowledged, window) =>
      Spells32(b, 17, o.swap32(acknowledged)) && Spells32(b, 21, o.swap32(window))
  }

  function Code(f: Frame): int {
    match f
    case Open(_, _) => 0x10
    case Data(_, _, _) => 0x11
    case Close(_, _) => 0x12
    case Error(_, _, _) => 0x13
    case Ack(_, _, _) => 0x14
  }

  lemma ShortIsLaidOut(id: Uuid, value: u16, o: ByteOrder)
    ensures var b := EncodeOpen(id, value, o);
            |b| == 19 && b[0] == 0x10 && b[1..17] == id && Spells16(b, 17, o.swap16(value))
    ensures var b := EncodeClose(id, value, o);
            |b| == 19 && b[0] == 0x12 && b[1..17] == id && Spells16(b, 17, o.swap16(value))
  {
    Be16Inverse(o.swap16(value));
    var open, close := EncodeOpen(id, value, o), EncodeClose(id, value, o);
    assert open[17..19] == Be16(o.swap16(value)) && close[17..19] == Be16(o.swap16(value));
    Spelled16(open, 17);
    Spelled16(close, 17);
  }

  lemma AckIsLaidOut(id: Uuid, acknowledged: u32, window: u32, o: ByteOrder)
    ensures var b := EncodeAck(id, acknowledged, window, o);
            && |b| == 25 && b[0] == 0x14 && b[1..17] == id
            && Spells32(b, 17, o.swap32(acknowledged)) && Spells32(b, 21, o.swap32(window))
  {
    var first, last := Be32(o.swap32(acknowledged)), Be32(o.swap32(window));
    Be32Inverse(o.swap32(acknowledged));
    Be32Inverse(o.swap32(window));
    var b := EncodeAck(id, acknowledged, window, o);
    assert b == [TCP_ACK] + id + first + last;
    hide EncodeAck, Be32, FromBe32, Spells32;
    assert b[17..21] == first && b[21..25] == last && b[1..17] == id;
    Spelled32(b, 17);
    Spelled32(b, 21);
  }

  /** Every frame is its code, its id, its fields most significant byte first, and its data. */
  lemma FrameIsLaidOut(f: Frame, o: ByteOrder)
    ensures var b := Encode(f, o);
            && |b| == HeaderSize(f) + |Trailer(f)| && b[0] == Code(f) && b[1..17] == f.id
            && Fields(f, o, b) && b[HeaderSize(f)..] == Trailer(f)
  {
    hide Spells16, Spells32, EncodeOpen, EncodeClose, EncodeData, EncodeError, EncodeAck, FromBe16, FromBe32;
    var b := Encode(f, o);
    match f
    case Open(id, port) => ShortIsLaidOut(id, port, o);
    case Close(id, reason) => ShortIsLaidOut(id, reason, o);
    case Ack(id, acknowledged, window) => AckIsLaidOut(id, acknowledged, window, o);
    case Data(id, sequence, payload) =>
      DataHeader(id, sequence, payload);
      Spelled32(b, 17);
      Spelled32(b, 21);
    case Error(id, code, message) =>
      ErrorHeader(id, code, message, o);
      Spelled16(b, 17);
      Spelled16(b, 19);
  }

  // ----- more or less than one frame -----

  lemma SameFront(b: seq<byte>, n: nat, i: nat, j: nat)
    requires i <= j <= n <= |b|
    ensures b[..n][i..j] == b[i..j]
  {
  }

  lemma SameFrontOf(b: seq<byte>, rest: seq<byte>, i: nat, j: nat)
    requires i <= j <= |b|
    ensures (b + rest)[i..j] == b[i..j]
  {
  }

  /** Bytes behind a frame do not matter: what decodes to the frame alone decodes to it in front of them. */
  lemma DecodeReadsFront(f: Frame, o: ByteOrder, rest: seq<byte>)
    requires Involutive(o)
    ensures Decode(Encode(f, o) + rest, o) == Ok(f) <==> Recoverable(f, o)
  {
    DecodeInvertsEncode(f, o);
    var b := Encode(f, o);
    FrameIsLaidOut(f, o);
    hide Encode, FromBe16, FromBe32, Fields;
    var n := HeaderSize(f);
    SameFrontOf(b, rest, 1, 17);
    assert (b + rest)[0] == b[0];
    match f
    case Open(_, _) => SameFrontOf(b, rest, 17, 19);
    case Close(_, _) => SameFrontOf(b, rest, 17, 19);
    case Ack(_, _, _) =>
      SameFrontOf(b, rest, 17, 21);
      SameFrontOf(b, rest, 21, 25);
    case Data(id, sequence, payload) => DataFront(id, sequence, payload, o, rest);
    case Error(id, code, message) => ErrorFront(id, code, message, o, rest);
  }

  lemma DataFront(id: Uuid, sequence: u32, payload: seq<byte>, o: ByteOrder, rest: seq<byte>)
    requires Involutive(o)
    ensures DecodeData(EncodeData(id, sequence, payload) + rest, o) == Ok(Data(id, sequence, payload))
            <==> |payload| < TWO_32 && o.swap32(sequence) == sequence && o.swap32(|payload|) == |payload|
  {
    DataHeader(id, sequence, payload);
    var b := EncodeData(id, sequence, payload);
    hide EncodeData, FromBe32;
    SameFrontOf(b, rest, 1, 17);
    SameFrontOf(b, rest, 17, 21);
    SameFrontOf(b, rest, 21, 25);
    assert (b + rest)[0] == b[0];
    var length: int := o.swap32(|payload| % TWO_32);
    ModAtMost(25 + length);
    if length == |payload| {
      assert o.swap32(length) == |payload| % TWO_32;
      SameFrontOf(b, rest, 25, 25 + length);
      assert b[25..25 + length] == b[25..];
    } else if 25 + length <= |b + rest| {
      assert |(b + rest)[25..25 + length]| != |payload|;
    }
  }

  lemma ErrorFront(id: Uuid, code: u16, message: seq<byte>, o: ByteOrder, rest: seq<byte>)
    requires Involutive(o)
    ensures DecodeError(EncodeError(id, code, message, o) + rest, o) == Ok(Error(id, code, message))
            <==> |message| < 0x1_0000
  {
    ErrorHeader(id, code, message, o);
    var b := EncodeError(id, code, message, o);
    hide EncodeError, FromBe16;
    SameFrontOf(b, rest, 1, 17);
    SameFrontOf(b, rest, 17, 19);
    SameFrontOf(b, rest, 19, 21);
    assert (b + rest)[0] == b[0];
    var length: int := |message| % 0x1_0000;
    assert o.swap16(o.swap16(length)) == length;
    SameFrontOf(b, rest, 21, 21 + length);
    assert |b[21..21 + length]| == length;
    assert b[21..21 + |message|] == b[21..];
  }

  /** A frame that has not arrived whole is refused: as too small while its header is missing, as
      incomplete after that, unless its size passes 32 bits and the length test wraps. */
  lemma PrefixIsRefused(f: Frame, o: ByteOrder, n: nat)
    requires Involutive(o) && Recoverable(f, o) && n < |Encode(f, o)|
    ensures Decode(Encode(f, o)[..n], o) == Err(if n < HeaderSize(f) then TooSmall
                                                      else if |Encode(f, o)| < 0x1_0000_0000 then Incomplete
                                                      else OutOfBounds)
  {
    FrameIsLaidOut(f, o);
    var b := Encode(f, o);
    match f
    case Data(id, sequence, payload) =>
      DataPrefix(id, sequence, payload, o, n);
      hide Encode, FromBe32, Fields, DecodeData;
    case Error(id, code, message) =>
      ErrorHeader(id, code, message, o);
      hide Encode, EncodeError, FromBe16, Fields;
      if n >= 21 { SameFront(b, n, 19, 21); }
      assert o.swap16(o.swap16(|message|)) == |message|;
    case _ =>
      hide Encode, FromBe16, FromBe32, Fields;
  }

  lemma DataPrefix(id: Uuid, sequence: u32, payload: seq<byte>, o: ByteOrder, n: nat)
    requires |payload| < TWO_32 && o.swap32(|payload|) == |payload| && n < |EncodeData(id, sequence, payload)|
    ensures DecodeData(EncodeData(id, sequence, payload)[..n], o)
            == Err(if n < 25 then TooSmall
                   else if |EncodeData(id, sequence, payload)| < 0x1_0000_0000 then Incomplete
                   else OutOfBounds)
  {
    DataHeader(id, sequence, payload);
    var b := EncodeData(id, sequence, payload);
    hide EncodeData, FromBe32;
    SmallMod(|payload|);
    if n >= 25 {
      SameFront(b, n, 21, 25);
      assert o.swap32(FromBe32(b[..n][21..25])) == |payload|;
      if 25 + |payload| < TWO_32 {
        SmallMod(25 + |payload|);
      } else {
        WrappedMod(25 + |payload|);
      }
    }
  }

  lemma WrappedMod(n: nat)
    requires TWO_32 <= n < TWO_32 + 25
    ensures n % TWO_32 == n - TWO_32 < 25
  {
  }

  lemma SmallMod(n: nat)
    requires n < TWO_32
    ensures n % TWO_32 == n
  {
  }

  /** Any other first byte is no frame. */
  lemma OtherTypesAreRefused(b: seq<byte>, o: ByteOrder)
    ensures b == [] ==> Decode(b, o) == Err(TooSmall)
    ensures b != [] ==> (Decode(b, o) == Err(InvalidType) <==> b[0] < 0x10 || 0x14 < b[0])
  {
    hide FromBe16, FromBe32;
  }

  /** Each decoder by itself refuses what is shorter than its header, and then what is of another type. */
  lemma OwnTypeIsChecked(b: seq<byte>, o: ByteOrder)
    ensures DecodeOpen(b, o) == Err(TooSmall) <==> |b| < 19
    ensures DecodeData(b, o) == Err(TooSmall) <==> |b| < 25
    ensures DecodeClose(b, o) == Err(TooSmall) <==> |b| < 19
    ensures DecodeError(b, o) == Err(TooSmall) <==> |b| < 21
    ensures DecodeAck(b, o) == Err(TooSmall) <==> |b| < 25
    ensures DecodeOpen(b, o) == Err(InvalidType) <==> |b| >= 19 && b[0] != 0x10
    ensures DecodeData(b, o) == Err(InvalidType) <==> |b| >= 25 && b[0] != 0x11
    ensures DecodeClose(b, o) == Err(InvalidType) <==> |b| >= 19 && b[0] != 0x12
    ensures DecodeError(b, o) == Err(InvalidType) <==> |b| >= 21 && b[0] != 0x13
    ensures DecodeAck(b, o) == Err(InvalidType) <==> |b| >= 25 && b[0] != 0x14
  {
    hide FromBe16, FromBe32;
  }
}
