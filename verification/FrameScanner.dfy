/** Splitting a buffer into tunnel frames, as `process_tcp_frames` does. */
module FrameScanner {
  import opened Bytes
  import opened Sequences
  import opened TcpProtocol

  const MAX_DATA := 65536

  predicate IsTcpFrame(b: seq<byte>) {
    |b| >= 1 && 0x10 <= b[0] <= 0x14
  }

  /** The size the header announces; 0 when the header is not complete or announces too much data. */
  function FrameSize(b: seq<byte>): (size: nat)
    requires IsTcpFrame(b)
    ensures size == 0 || size >= 19
  {
    if b[0] == TCP_OPEN || b[0] == TCP_CLOSE then 19
    else if b[0] == TCP_ACK then 25
    else if b[0] == TCP_DATA then
      if |b| < 25 then 0
      else
        var length: int := FromBe32(b[21..25]);
        if length > MAX_DATA then 0 else 25 + length
    else
      if |b| < 21 then 0
      else
        var length: int := FromBe16(b[19..21]);
        21 + length
  }

  predicate Complete(b: seq<byte>) {
    IsTcpFrame(b) && 0 < FrameSize(b) <= |b|
  }

  datatype Scanned = Scanned(frames: seq<seq<byte>>, consumed: nat)

  function Scan(b: seq<byte>): (r: Scanned)
    ensures r.consumed <= |b|
    decreases |b|
  {
    if !Complete(b) then Scanned([], 0)
    else
      var rest := Scan(b[FrameSize(b)..]);
      Scanned([b[..FrameSize(b)]] + rest.frames, FrameSize(b) + rest.consumed)
  }

  /** The frames handed over are the consumed bytes, cut in pieces of at least 19. */
  lemma {:induction false} ScanCutsPrefix(b: seq<byte>)
    ensures Concat(Scan(b).frames) == b[..Scan(b).consumed]
    ensures 19 * |Scan(b).frames| <= Scan(b).consumed
    ensures !Complete(b[Scan(b).consumed..])
    decreases |b|
  {
    if Complete(b) {
      var n := FrameSize(b);
      ScanCutsPrefix(b[n..]);
      var rest := Scan(b[n..]);
      assert Scan(b).frames[1..] == rest.frames;
      SliceAgain(b, n, rest.consumed);
    } else {
      Whole(b);
    }
  }

  /** More bytes never change how a complete frame is read. */
  lemma CompleteStays(a: seq<byte>, b: seq<byte>)
    requires Complete(a)
    ensures Complete(a + b) && FrameSize(a + b) == FrameSize(a)
  {
    if |a| >= 25 {
      assert (a + b)[21..25] == a[21..25];
    }
    if |a| >= 21 {
      assert (a + b)[19..21] == a[19..21];
    }
  }

  /** Scanning does not depend on where the stream was cut: the unconsumed tail of one chunk,
      followed by the next chunk, continues exactly where the first scan stopped. */
  lemma {:induction false} ScanChunks(a: seq<byte>, b: seq<byte>)
    ensures var first := Scan(a);
            var second := Scan(a[first.consumed..] + b);
            Scan(a + b) == Scanned(first.frames + second.frames, first.consumed + second.consumed)
    decreases |a|
  {
    if Complete(a) {
      CompleteStays(a, b);
      var n := FrameSize(a);
      CutConcat(a, b, n);
      ScanChunks(a[n..], b);
      var rest := Scan(a[n..]);
      SliceAgain(a, n, rest.consumed);
      var second := Scan(a[n + rest.consumed..] + b);
      Associative([a[..n]], rest.frames, second.frames);
    } else {
      Whole(a);
      Whole(Scan(a + b).frames);
    }
  }

  // ----- the scanning loop -----

  /** The loop has handed over `done` and stands at `consumed`. */
  predicate ScannedUpTo(b: seq<byte>, consumed: nat, done: seq<seq<byte>>) {
    && consumed <= |b|
    && Scan(b).consumed == consumed + Scan(b[consumed..]).consumed
    && Scan(b).frames == done + Scan(b[consumed..]).frames
  }

  lemma ScanStarts(b: seq<byte>)
    ensures ScannedUpTo(b, 0, [])
  {
    Whole(b);
  }

  lemma ScanUnfolds(b: seq<byte>, size: nat)
    requires Complete(b) && size == FrameSize(b)
    ensures size <= |b|
    ensures Scan(b) == Scanned([b[..size]] + Scan(b[size..]).frames, size + Scan(b[size..]).consumed)
  {
  }

  lemma ScanAdvances(b: seq<byte>, consumed: nat, done: seq<seq<byte>>)
    requires ScannedUpTo(b, consumed, done) && Complete(b[consumed..])
    ensures var size := FrameSize(b[consumed..]);
            ScannedUpTo(b, consumed + size, done + [b[consumed..][..size]])
  {
    hide FrameSize, Scan;
    var current := b[consumed..];
    var size := FrameSize(current);
    ScanUnfolds(current, size);
    assert current[size..] == b[consumed + size..];
    Associative(done, [current[..size]], Scan(current[size..]).frames);
  }

  lemma ScanEnds(b: seq<byte>, consumed: nat, done: seq<seq<byte>>)
    requires ScannedUpTo(b, consumed, done) && !Complete(b[consumed..])
    ensures Scan(b) == Scanned(done, consumed)
  {
    Whole(done);
  }

  // ----- against the encoders -----

  /** Frames whose encoded length field the scanner reads back. */
  predicate Scannable(f: Frame, o: ByteOrder) {
    match f
    case Data(_, _, payload) => |payload| <= 65536
    case Error(_, _, message) => |message| < 0x1_0000 && o.swap16(|message|) == |message|
    case _ => true
  }

  function EncodeAll(fs: seq<Frame>, o: ByteOrder): seq<byte> {
    if fs == [] then [] else Encode(fs[0], o) + EncodeAll(fs[1..], o)
  }

  function EncodeEach(fs: seq<Frame>, o: ByteOrder): (parts: seq<seq<byte>>)
    ensures |parts| == |fs|
  {
    if fs == [] then [] else [Encode(fs[0], o)] + EncodeEach(fs[1..], o)
  }

  lemma SwapBack16(x: int, o: ByteOrder)
    requires Involutive(o) && 0 <= x
    ensures o.swap16(x % 0x1_0000) == x <==> x < 0x1_0000 && o.swap16(x) == x
  {
    if x < 0x1_0000 {
      assert x % 0x1_0000 == x;
    }
  }

  lemma SizeOfData(id: Uuid, sequence: u32, payload: seq<byte>, rest: seq<byte>)
    ensures var b := EncodeData(id, sequence, payload);
            Complete(b + rest) && FrameSize(b + rest) == |b| <==> |payload| <= 65536
  {
    hide FromBe32, Be32;
    var b := EncodeData(id, sequence, payload);
    DataHeader(id, sequence, payload);
    assert (b + rest)[21..25] == b[21..25] && (b + rest)[0] == TCP_DATA;
    assert |b| == 25 + |payload|;
  }

  lemma SizeOfError(id: Uuid, code: u16, message: seq<byte>, o: ByteOrder, rest: seq<byte>)
    requires Involutive(o)
    ensures var b := EncodeError(id, code, message, o);
            Complete(b + rest) && FrameSize(b + rest) == |b|
            <==> |message| < 0x1_0000 && o.swap16(|message|) == |message|
  {
    hide FromBe16, Be16;
    var b := EncodeError(id, code, message, o);
    ErrorHeader(id, code, message, o);
    SwapBack16(|message|, o);
    Be16Inverse(o.swap16(|message| % 0x1_0000));
    assert (b + rest)[19..21] == b[19..21] && (b + rest)[0] == TCP_ERROR;
    assert |b| == 21 + |message|;
  }

  /** The scanner cuts an encoded frame off a stream exactly when the frame is scannable. */
  lemma SizeOfEncoded(f: Frame, o: ByteOrder, rest: seq<byte>)
    requires Involutive(o)
    ensures Complete(Encode(f, o) + rest) && FrameSize(Encode(f, o) + rest) == |Encode(f, o)|
            <==> Scannable(f, o)
  {
    hide EncodeData, EncodeError;
    match f
    case Data(id, sequence, payload) => SizeOfData(id, sequence, payload, rest);
    case Error(id, code, message) => SizeOfError(id, code, message, o, rest);
    case _ =>
  }

  /** On a stream of encoded frames the scanner hands over exactly the frames, consuming all of it,
      if and only if every frame is scannable. */
  lemma {:induction false} ScanInvertsEncoders(fs: seq<Frame>, o: ByteOrder)
    requires Involutive(o)
    ensures Scan(EncodeAll(fs, o)) == Scanned(EncodeEach(fs, o), |EncodeAll(fs, o)|)
            <==> forall i :: 0 <= i < |fs| ==> Scannable(fs[i], o)
  {
    if fs != [] {
      var b, rest := Encode(fs[0], o), EncodeAll(fs[1..], o);
      SizeOfEncoded(fs[0], o, rest);
      ScanInvertsEncoders(fs[1..], o);
      if Scannable(fs[0], o) {
        SplitConcat(b, rest);
        assert Scan(b + rest).frames[1..] == Scan(rest).frames;
        assert EncodeEach(fs, o)[1..] == EncodeEach(fs[1..], o);
        AllOrFirst(fs, o);
      } else if Complete(b + rest) {
        assert Scan(b + rest).frames[0] == (b + rest)[..FrameSize(b + rest)];
        assert EncodeEach(fs, o)[0] == b;
      }
    }
  }

  lemma AllOrFirst(fs: seq<Frame>, o: ByteOrder)
    requires fs != [] && Scannable(fs[0], o)
    ensures (forall i :: 0 <= i < |fs| ==> Scannable(fs[i], o))
            <==> forall i :: 0 <= i < |fs[1..]| ==> Scannable(fs[1..][i], o)
  {
    if forall i :: 0 <= i < |fs[1..]| ==> Scannable(fs[1..][i], o) {
      forall i | 0 <= i < |fs| ensures Scannable(fs[i], o) {
        if i > 0 { assert fs[i] == fs[1..][i - 1]; }
      }
    }
  }

  // ----- reads that cut frames -----

  /** Each read is scanned on its own and what the scan leaves over is not kept for the next one. */
  function ScanReads(chunks: seq<seq<byte>>): seq<seq<byte>> {
    if chunks == [] then [] else Scan(chunks[0]).frames + ScanReads(chunks[1..])
  }

  /** Bytes that are whole frames only. */
  predicate Framed(b: seq<byte>) {
    Scan(b).consumed == |b|
  }

  /** A single frame the scanner recognises. */
  predicate Exact(f: seq<byte>) {
    Complete(f) && FrameSize(f) == |f|
  }

  lemma ConcatEncoded(fs: seq<Frame>, o: ByteOrder)
    ensures Concat(EncodeEach(fs, o)) == EncodeAll(fs, o)
  {
    if fs != [] {
      assert EncodeEach(fs, o)[1..] == EncodeEach(fs[1..], o);
      ConcatEncoded(fs[1..], o);
    }
  }

  lemma ScanEmpty()
    ensures Scan([]) == Scanned([], 0)
  {
  }

  lemma {:induction false} ReadsHandOver(chunks: seq<seq<byte>>)
    ensures |Concat(ScanReads(chunks))| <= |Concat(chunks)|
    ensures |Concat(ScanReads(chunks))| == |Concat(chunks)| <==> forall c :: c in chunks ==> Framed(c)
    ensures |Concat(ScanReads(chunks))| == |Concat(chunks)| ==>
              Scan(Concat(chunks)) == Scanned(ScanReads(chunks), |Concat(chunks)|)
  {
    hide Complete, FrameSize, Scan;
    ScanEmpty();
    if chunks != [] {
      var first, rest := chunks[0], chunks[1..];
      ReadsHandOver(rest);
      ScanCutsPrefix(first);
      ConcatDistributes(Scan(first).frames, ScanReads(rest));
      if Framed(first) {
        ScanChunks(first, Concat(rest));
        Whole(first);
        assert first[|first|..] + Concat(rest) == Concat(rest);
      }
      assert chunks == [first] + rest;
      assert forall c :: c in chunks <==> c == first || c in rest;
    }
  }

  /** However an encoded stream is cut into reads, its frames all reach the handler exactly when
      every read ends on a frame boundary. */
  lemma ReadsDeliverStream(fs: seq<Frame>, o: ByteOrder, chunks: seq<seq<byte>>)
    requires Involutive(o) && forall i :: 0 <= i < |fs| ==> Scannable(fs[i], o)
    requires Concat(chunks) == EncodeAll(fs, o)
    ensures ScanReads(chunks) == EncodeEach(fs, o) <==> forall c :: c in chunks ==> Framed(c)
  {
    ReadsHandOver(chunks);
    ScanInvertsEncoders(fs, o);
    ConcatEncoded(fs, o);
  }

  lemma OneFrameIsFramed(f: Frame, o: ByteOrder)
    requires Involutive(o) && Scannable(f, o)
    ensures Framed(Encode(f, o))
  {
    SizeOfEncoded(f, o, []);
    Whole(Encode(f, o));
    ScanEmpty();
    hide Encode, FrameSize;
  }

  lemma ScanOneFrame(f: Frame, o: ByteOrder)
    requires Involutive(o) && Scannable(f, o)
    ensures Scan(Encode(f, o)) == Scanned([Encode(f, o)], |Encode(f, o)|)
  {
    var b := Encode(f, o);
    SizeOfEncoded(f, o, []);
    Whole(b);
    hide Encode, FrameSize;
    assert Scan(b[|b|..]) == Scanned([], 0);
    Whole([b]);
  }

  /** What a read hands over need not have been sent. A read that ends between the header and the
      payload of a DATA frame loses the frame, and the next read takes its payload for frames. */
  lemma CutReadHandsOverPayload(id: Uuid, sequence: u32, inner: Frame, o: ByteOrder)
    requires Involutive(o) && Scannable(inner, o) && |Encode(inner, o)| <= MAX_DATA
    ensures var b := EncodeData(id, sequence, Encode(inner, o));
            |b| >= 25 && Scan(b).frames == [b] && ScanReads([b[..25], b[25..]]) == [Encode(inner, o)]
  {
    var payload := Encode(inner, o);
    var b := EncodeData(id, sequence, payload);
    DataHeader(id, sequence, payload);
    ScanOneFrame(Data(id, sequence, payload), o);
    ScanOneFrame(inner, o);
    assert Scan(b[..25]) == Scanned([], 0) by { HeaderAlone(id, sequence, payload); }
    hide Encode, EncodeData, Scan;
    var halves, last, none: seq<seq<byte>> := [b[..25], b[25..]], [payload], [];
    assert halves[1..] == last && last[1..] == none;
    assert ScanReads(last) == Scan(payload).frames + ScanReads(none);
    Whole([payload]);
  }

  lemma HeaderAlone(id: Uuid, sequence: u32, payload: seq<byte>)
    requires 0 < |payload| <= MAX_DATA
    ensures var b := EncodeData(id, sequence, payload); Scan(b[..25]) == Scanned([], 0)
  {
    var b := EncodeData(id, sequence, payload);
    DataHeader(id, sequence, payload);
    assert b[..25][21..25] == b[21..25] && b[..25][0] == TCP_DATA;
    hide EncodeData, FromBe32;
  }

  // ----- the size of a read -----

  /** The agent reads into a buffer of this size. */
  const READ_BUFFER := 8192

  predicate ReadsFit(chunks: seq<seq<byte>>) {
    forall c :: c in chunks ==> |c| <= READ_BUFFER
  }

  lemma {:induction false} FramesFitTheirRead(b: seq<byte>)
    ensures forall f :: f in Scan(b).frames ==> |f| <= |b|
    decreases |b|
  {
    if Complete(b) {
      FramesFitTheirRead(b[FrameSize(b)..]);
      var rest := Scan(b[FrameSize(b)..]).frames;
      assert Scan(b).frames == [b[..FrameSize(b)]] + rest;
    }
  }

  lemma {:induction false} FramesFitTheBuffer(chunks: seq<seq<byte>>)
    requires ReadsFit(chunks)
    ensures forall f :: f in ScanReads(chunks) ==> |f| <= READ_BUFFER
  {
    hide Scan;
    if chunks != [] {
      FramesFitTheirRead(chunks[0]);
      FramesFitTheBuffer(chunks[1..]);
    }
  }

  lemma EncodedAt(fs: seq<Frame>, o: ByteOrder, i: nat)
    requires i < |fs|
    ensures EncodeEach(fs, o)[i] == Encode(fs[i], o)
  {
    hide Encode;
    if i > 0 { EncodedAt(fs[1..], o, i - 1); }
  }

  /** Reads that fit the buffer, make up the stream and hand over all its frames. */
  predicate Delivers(chunks: seq<seq<byte>>, fs: seq<Frame>, o: ByteOrder) {
    ReadsFit(chunks) && Concat(chunks) == EncodeAll(fs, o) && ScanReads(chunks) == EncodeEach(fs, o)
  }

  predicate FramesFit(fs: seq<Frame>, o: ByteOrder) {
    forall i :: 0 <= i < |fs| ==> |Encode(fs[i], o)| <= 8192
  }

  lemma OneReadPerFrame(fs: seq<Frame>, o: ByteOrder)
    requires Involutive(o) && (forall i :: 0 <= i < |fs| ==> Scannable(fs[i], o)) && FramesFit(fs, o)
    ensures Delivers(EncodeEach(fs, o), fs, o)
  {
    hide Encode, Scan, ScanReads, Scannable, Framed, EncodeAll, EncodeEach;
    var each := EncodeEach(fs, o);
    forall i | 0 <= i < |fs|
      ensures each[i] == Encode(fs[i], o) && Framed(each[i])
    {
      EncodedAt(fs, o, i);
      OneFrameIsFramed(fs[i], o);
    }
    ConcatEncoded(fs, o);
    ReadsDeliverStream(fs, o, each);
  }

  lemma DeliveredFramesFit(chunks: seq<seq<byte>>, fs: seq<Frame>, o: ByteOrder)
    requires Delivers(chunks, fs, o)
    ensures FramesFit(fs, o)
  {
    hide Encode, ScanReads, EncodeEach;
    FramesFitTheBuffer(chunks);
    forall i | 0 <= i < |fs|
      ensures |Encode(fs[i], o)| <= READ_BUFFER
    {
      EncodedAt(fs, o, i);
      assert EncodeEach(fs, o)[i] in ScanReads(chunks);
    }
  }

  /** Some way of reading a stream into the agent's buffer delivers all its frames if and only if each
      of them fits the buffer; a longer frame never arrives, however the stream is cut. */
  lemma DeliverableExactlyWhenFramesFit(fs: seq<Frame>, o: ByteOrder)
    requires Involutive(o) && forall i :: 0 <= i < |fs| ==> Scannable(fs[i], o)
    ensures (exists chunks: seq<seq<byte>> :: Delivers(chunks, fs, o)) <==> FramesFit(fs, o)
  {
    hide Delivers, FramesFit, Scannable;
    if FramesFit(fs, o) { OneReadPerFrame(fs, o); }
    if chunks: seq<seq<byte>> :| Delivers(chunks, fs, o) { DeliveredFramesFit(chunks, fs, o); }
  }
}
