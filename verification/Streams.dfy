/** The byte stream of one connection inside a sequence of frames. */
module Streams {
  import opened Bytes
  import opened Sequences
  import opened TcpProtocol
  import opened FrameScanner

  type FrameBytes = f: seq<byte> | |f| >= 19 witness seq(19, _ => 0)

  function IdOf(f: FrameBytes): Uuid {
    f[1..17]
  }

  /** What a frame adds to the stream of connection `id`. */
  function Part(id: Uuid, f: FrameBytes): seq<byte> {
    if IdOf(f) == id && f[0] == TCP_DATA && InlineData(f).Payload? then InlineData(f).bytes else []
  }

  function Stream(id: Uuid, fs: seq<FrameBytes>): seq<byte> {
    if fs == [] then [] else Stream(id, fs[..|fs| - 1]) + Part(id, fs[|fs| - 1])
  }

  predicate Opened(id: Uuid, fs: seq<FrameBytes>) {
    exists i :: 0 <= i < |fs| && IdOf(fs[i]) == id && fs[i][0] == TCP_OPEN
  }

  predicate Unmentioned(id: Uuid, fs: seq<FrameBytes>) {
    forall i :: 0 <= i < |fs| ==> IdOf(fs[i]) != id
  }

  /** A well-formed DATA frame numbered by the bytes before it. */
  predicate Numbered(f: FrameBytes, offset: nat) {
    |f| >= 25 && InlineData(f).Payload? && FromBe32(f[17..21]) == offset % TWO_32
  }

  /** One OPEN first, then only DATA, each numbered by its offset in the stream. */
  predicate Follows(id: Uuid, fs: seq<FrameBytes>, f: FrameBytes) {
    IdOf(f) == id ==>
      || (f[0] == TCP_OPEN && !Opened(id, fs))
      || (f[0] == TCP_DATA && Opened(id, fs) && Numbered(f, |Stream(id, fs)|))
  }

  predicate Orderly(id: Uuid, fs: seq<FrameBytes>) {
    fs == [] || (Orderly(id, fs[..|fs| - 1]) && Follows(id, fs[..|fs| - 1], fs[|fs| - 1]))
  }

  lemma Append(id: Uuid, fs: seq<FrameBytes>, f: FrameBytes)
    ensures Stream(id, fs + [f]) == Stream(id, fs) + Part(id, f)
    ensures Opened(id, fs + [f]) <==> Opened(id, fs) || (IdOf(f) == id && f[0] == TCP_OPEN)
    ensures Orderly(id, fs + [f]) <==> Orderly(id, fs) && Follows(id, fs, f)
  {
    assert (fs + [f])[..|fs|] == fs;
    if Opened(id, fs) {
      var i :| 0 <= i < |fs| && IdOf(fs[i]) == id && fs[i][0] == TCP_OPEN;
      assert (fs + [f])[i] == fs[i];
    }
    assert (fs + [f])[|fs|] == f;
  }

  lemma {:induction false} StreamSplit(id: Uuid, a: seq<FrameBytes>, b: seq<FrameBytes>)
    ensures Stream(id, a + b) == Stream(id, a) + Stream(id, b)
  {
    if b == [] {
      Whole(a);
      Whole(Stream(id, a));
    } else {
      var front, last := b[..|b| - 1], b[|b| - 1];
      assert b == front + [last];
      Associative(a, front, [last]);
      StreamSplit(id, a, front);
      Append(id, a + front, last);
      Append(id, front, last);
      Associative(Stream(id, a), Stream(id, front), Part(id, last));
    }
  }

  lemma {:induction false} OrderlyPrefix(id: Uuid, a: seq<FrameBytes>, b: seq<FrameBytes>)
    requires Orderly(id, a + b)
    ensures Orderly(id, a)
  {
    if b == [] {
      Whole(a);
    } else {
      var front, last := b[..|b| - 1], b[|b| - 1];
      assert b == front + [last];
      Associative(a, front, [last]);
      Append(id, a + front, last);
      OrderlyPrefix(id, a, front);
    }
  }

  lemma {:induction false} UnmentionedIsSilent(id: Uuid, fs: seq<FrameBytes>)
    requires Unmentioned(id, fs)
    ensures Stream(id, fs) == [] && !Opened(id, fs) && Orderly(id, fs)
  {
    if fs != [] {
      var front, last := fs[..|fs| - 1], fs[|fs| - 1];
      assert fs == front + [last];
      UnmentionedIsSilent(id, front);
      Append(id, front, last);
    }
  }

  lemma {:induction false} NothingBeforeOpen(id: Uuid, fs: seq<FrameBytes>)
    requires Orderly(id, fs) && !Opened(id, fs)
    ensures Stream(id, fs) == []
  {
    if fs != [] {
      var front, last := fs[..|fs| - 1], fs[|fs| - 1];
      assert fs == front + [last];
      Append(id, front, last);
      NothingBeforeOpen(id, front);
    }
  }

  // ----- the frames of a buffer -----

  function Frames(b: seq<byte>): (fs: seq<FrameBytes>) {
    ScanFramesAreLong(b);
    Scan(b).frames
  }

  lemma {:induction false} ScanFramesAreLong(b: seq<byte>)
    ensures forall i :: 0 <= i < |Scan(b).frames| ==> |Scan(b).frames[i]| >= 19
    decreases |b|
  {
    if Complete(b) {
      ScanFramesAreLong(b[FrameSize(b)..]);
      var rest := Scan(b[FrameSize(b)..]).frames;
      assert forall i :: 0 < i < |Scan(b).frames| ==> Scan(b).frames[i] == rest[i - 1];
    }
  }

  lemma FramedConcat(a: seq<byte>, b: seq<byte>)
    requires Framed(a)
    ensures Frames(a + b) == Frames(a) + Frames(b)
    ensures Framed(a + b) <==> Framed(b)
  {
    ScanChunks(a, b);
    Whole(a);
    assert a[|a|..] + b == b;
  }

  lemma ExactIsOneFrame(f: seq<byte>)
    requires Exact(f)
    ensures |f| >= 19 && Framed(f) && Frames(f) == [f]
  {
    Whole(f);
    assert Scan(f[|f|..]) == Scanned([], 0);
  }

  lemma AppendExact(wire: seq<byte>, f: seq<byte>)
    requires Framed(wire) && Exact(f)
    ensures |f| >= 19 && Framed(wire + f) && Frames(wire + f) == Frames(wire) + [f]
  {
    ExactIsOneFrame(f);
    FramedConcat(wire, f);
  }
}
