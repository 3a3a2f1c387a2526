/** Every step keeps the invariant of the tunnel. */
module TunnelInvariant {
  import opened Bytes
  import opened Sequences
  import opened TcpProtocol
  import opened ConnectionIds
  import opened FrameScanner
  import opened Streams
  import opened TcpProxy
  import opened TcpForwarder
  import opened Tunnel

  // ----- the frames the server emits -----

  lemma OpenIsExact(id: Uuid, o: ByteOrder)
    ensures var f := EncodeOpen(id, 0, o); Exact(f) && |f| == 19 && f[0] == TCP_OPEN && f[1..17] == id
  {
  }

  function OpenFrame(id: Uuid, o: ByteOrder): (f: FrameBytes)
    ensures Exact(f) && f[0] == TCP_OPEN && IdOf(f) == id
  {
    OpenIsExact(id, o);
    EncodeOpen(id, 0, o)
  }

  lemma DataIsExact(id: Uuid, sequence: u32, payload: seq<byte>)
    requires |payload| <= MAX_DATA
    ensures var f := EncodeData(id, sequence, payload);
            && Exact(f) && |f| >= 25 && f[0] == TCP_DATA && f[1..17] == id
            && InlineData(f) == Payload(payload) && FromBe32(f[17..21]) == sequence
  {
    DataHeader(id, sequence, payload);
    InlineDataInvertsEncode(id, sequence, payload);
  }

  lemma CloseIsExact(key: string)
    ensures var f := CloseFrame(key); Exact(f) && |f| == 19 && f[0] == TCP_CLOSE && f[1..17] == CloseFrameId(key)
  {
  }

  /** A frame of another connection changes nothing for this one. */
  lemma Elsewhere(id: Uuid, l: Log, linkUp: bool, fs: seq<FrameBytes>, f: FrameBytes)
    requires DownOk(id, l, linkUp, fs) && IdOf(f) != id
    ensures DownOk(id, l, linkUp, fs + [f]) && (Opened(id, fs + [f]) <==> Opened(id, fs))
  {
    Append(id, fs, f);
    Whole(Stream(id, fs));
  }

  lemma KnownStays(f: FrameBytes, logs: map<Uuid, Log>, more: map<Uuid, Log>)
    requires KnownFrame(f, logs) && logs.Keys <= more.Keys
    ensures KnownFrame(f, more)
  {
    if IdOf(f) !in logs {
      var v :| v in logs && CloseId(v) == IdOf(f);
      assert v in more;
    }
  }

  lemma KnownAppend(fs: seq<FrameBytes>, f: FrameBytes, logs: map<Uuid, Log>, more: map<Uuid, Log>)
    requires KnownFrames(fs, logs) && KnownFrame(f, more) && logs.Keys <= more.Keys
    ensures KnownFrames(fs + [f], more) && KnownFrames(fs, more)
  {
    forall i | 0 <= i < |fs + [f]| ensures KnownFrame((fs + [f])[i], more) {
      if i < |fs| { KnownStays(fs[i], logs, more); }
    }
    forall i | 0 <= i < |fs| ensures KnownFrame(fs[i], more) {
      KnownStays(fs[i], logs, more);
    }
  }

  // ----- create -----

  lemma FreshIsUnmentioned(id: Uuid, fs: seq<FrameBytes>, logs: map<Uuid, Log>)
    requires KnownFrames(fs, logs) && Fresh(id, logs)
    ensures Unmentioned(id, fs)
  {
    forall i | 0 <= i < |fs| ensures IdOf(fs[i]) != id {
      assert KnownFrame(fs[i], logs);
    }
  }

  /** The server's steps leave the agent and what has arrived alone, and write at most one frame. */
  ghost predicate ServerWrites(w: World, w': World, f: seq<byte>) {
    && w'.agent == w.agent && w'.arrived == w.arrived && w'.returned == w.returned
    && w'.agentFramed == w.agentFramed && w'.serverFramed == w.serverFramed
    && w'.server.linkUp == w.server.linkUp
    && w'.server.wire == if w.server.linkUp then w.server.wire + f else w.server.wire
  }

  function FramesAfter(w: World, f: FrameBytes): seq<FrameBytes> {
    if w.server.linkUp then Frames(w.server.wire) + [f] else Frames(w.server.wire)
  }

  lemma ServerWritesKeepsWire(w: World, w': World, f: FrameBytes)
    requires Wired(w) && ServerWrites(w, w', f) && Exact(f)
    ensures Wired(w') && Frames(w'.server.wire) == FramesAfter(w, f)
    ensures w'.server.wire[..w'.arrived] == w.server.wire[..w.arrived]
  {
    AppendExact(w.server.wire, f);
    CutConcat(w.server.wire, f, w.arrived);
  }

  lemma ArrivedIsPrefix(w: World)
    requires Wired(w) && w.agentFramed
    ensures Frames(w.server.wire) == Frames(w.server.wire[..w.arrived]) + Frames(w.server.wire[w.arrived..])
    ensures Framed(w.server.wire[w.arrived..])
  {
    var wire := w.server.wire;
    assert wire == wire[..w.arrived] + wire[w.arrived..];
    FramedConcat(wire[..w.arrived], wire[w.arrived..]);
  }

  lemma UnmentionedPrefix(id: Uuid, a: seq<FrameBytes>, b: seq<FrameBytes>)
    requires Unmentioned(id, a + b)
    ensures Unmentioned(id, a)
  {
    forall i | 0 <= i < |a| ensures IdOf(a[i]) != id { assert a[i] == (a + b)[i]; }
  }

  /** The world after an admitted create. */
  function Created(w: World, id: Uuid, o: ByteOrder): World
    requires Fresh(id, w.logs)
  {
    Next(w, Create(id, Admitted), o)
  }

  lemma CreatedIds(w: World, id: Uuid, o: ByteOrder)
    requires Inv(w) && Fresh(id, w.logs) && Wired(Created(w, id, o))
    requires Frames(Created(w, id, o).server.wire) == FramesAfter(w, OpenFrame(id, o))
    ensures IdsKnown(Created(w, id, o))
  {
    hide Scan, Stream, Orderly, HandleFrames, InlineData, Frames, Text, Parse, Good, KeyKnown;
    var logs := w.logs[id := NEW_LOG];
    KnownAppend(Frames(w.server.wire), OpenFrame(id, o), w.logs, logs);
    NewIdClashesWithNone(w.logs, id);
    forall key | key in Created(w, id, o).server.conns ensures KeyKnown(key, logs) {
      CreatedKey(w.logs, id, key);
      assert key != Text(id) ==> key in w.server.conns;
    }
  }

  lemma NewIdClashesWithNone(logs: map<Uuid, Log>, id: Uuid)
    requires NoClash(logs) && Fresh(id, logs)
    ensures NoClash(logs[id := NEW_LOG])
  {
    hide CloseId;
  }

  lemma CreatedKey(logs: map<Uuid, Log>, id: Uuid, key: string)
    requires id !in logs
    ensures KeyKnown(key, logs) || key == Text(id) ==> KeyKnown(key, logs[id := NEW_LOG])
  {
    hide Text, Parse;
    ParseInvertsText(id);
  }

  lemma CreatedDown(w: World, id: Uuid, o: ByteOrder)
    requires Wired(w) && IdsKnown(w) && Fresh(id, w.logs)
    ensures var fs := FramesAfter(w, OpenFrame(id, o));
            && DownOk(id, NEW_LOG, w.server.linkUp, fs)
            && (w.server.linkUp ==> Opened(id, fs))
  {
    var fs := Frames(w.server.wire);
    FreshIsUnmentioned(id, fs, w.logs);
    UnmentionedIsSilent(id, fs);
    Append(id, fs, OpenFrame(id, o));
  }

  lemma CreatedAgent(w: World, id: Uuid)
    requires Wired(w) && IdsKnown(w) && Fresh(id, w.logs) && w.agentFramed
    ensures AgentOk(id, w.agent, Frames(w.server.wire[..w.arrived]))
  {
    FreshIsUnmentioned(id, Frames(w.server.wire), w.logs);
    ArrivedIsPrefix(w);
    UnmentionedPrefix(id, Frames(w.server.wire[..w.arrived]), Frames(w.server.wire[w.arrived..]));
    UnmentionedIsSilent(id, Frames(w.server.wire[..w.arrived]));
  }

  lemma NeverSent(id: Uuid, sent: seq<FrameBytes>, returned: nat)
    requires Unmentioned(id, sent) && returned <= |sent|
    ensures UpOk(id, NEW_LOG, sent, returned)
  {
    assert sent == sent[..returned] + sent[returned..];
    UnmentionedPrefix(id, sent[..returned], sent[returned..]);
    UnmentionedIsSilent(id, sent);
    UnmentionedIsSilent(id, sent[..returned]);
  }

  lemma CreatedGood(w: World, id: Uuid, o: ByteOrder)
    requires Wired(w) && IdsKnown(w) && Fresh(id, w.logs)
    ensures Wired(Created(w, id, o)) && Good(Created(w, id, o), id)
  {
    hide Stream, Orderly, Scan, Parse, InlineData, HandleFrames, AgentOk, UpOk;
    ServerWritesKeepsWire(w, Created(w, id, o), OpenFrame(id, o));
    CreatedDown(w, id, o);
    if w.agentFramed {
      CreatedAgent(w, id);
      NeverSent(id, w.agent.sent, w.returned);
    }
  }

  /** A connection other than the one a server step is about, when its table entry is untouched. */
  lemma OthersStayGood(w: World, w': World, f: FrameBytes, u: Uuid)
    requires Wired(w) && u in w.logs && Good(w, u) && Exact(f) && IdOf(f) != u
    requires ServerWrites(w, w', f) && u in w'.logs && w'.logs[u] == w.logs[u]
    requires Text(u) in w'.server.conns ==>
               Text(u) in w.server.conns && w'.server.conns[Text(u)] == w.server.conns[Text(u)]
    ensures Wired(w') && Good(w', u)
  {
    hide Stream, Orderly, Scan, Parse, InlineData, Part, HandleFrames;
    ServerWritesKeepsWire(w, w', f);
    Elsewhere(u, w.logs[u], w.server.linkUp, Frames(w.server.wire), f);
  }

  lemma CreateKeeps(w: World, id: Uuid, o: ByteOrder)
    requires Inv(w) && Fresh(id, w.logs)
    ensures Inv(Created(w, id, o))
  {
    hide Stream, Orderly, Scan, Parse, InlineData, Part, HandleFrames, Good, IdsKnown, Fresh;
    var w' := Created(w, id, o);
    ServerWritesKeepsWire(w, w', OpenFrame(id, o));
    CreatedIds(w, id, o);
    forall u | u in w'.logs ensures Good(w', u) {
      if u == id {
        CreatedGood(w, id, o);
      } else {
        TextIsInjective(u, id);
        OthersStayGood(w, w', OpenFrame(id, o), u);
      }
    }
  }

  // ----- data from a client -----

  lemma Remainder64(x: int, q: int, r: int)
    requires x == TWO_64 * q + r && 0 <= r < TWO_64
    ensures x % TWO_64 == r
  {
  }

  lemma Remainder32(x: int, q: int, r: int)
    requires x == TWO_32 * q + r && 0 <= r < TWO_32
    ensures x % TWO_32 == r
  {
  }

  lemma CounterAdds(count: nat, n: nat)
    requires n <= WINDOW
    ensures (count % TWO_64 + n) % TWO_64 == (count + n) % TWO_64
  {
    var q, r := count / TWO_64, count % TWO_64;
    if r + n < TWO_64 {
      Remainder64(count + n, q, r + n);
      Remainder64(r + n, 0, r + n);
    } else {
      Remainder64(count + n, q + 1, r + n - TWO_64);
      Remainder64(r + n, 1, r + n - TWO_64);
    }
  }

  lemma CounterSubtracts(r: u64, n: nat)
    requires n <= WINDOW
    ensures ((r as int + n) % TWO_64 - n) % TWO_64 == r
  {
    if r as int + n < TWO_64 {
      Remainder64(r as int + n, 0, r as int + n);
      Remainder64(r, 0, r);
    } else {
      Remainder64(r as int + n, 1, r as int + n - TWO_64);
      Remainder64(r as int - TWO_64, -1, r);
    }
  }

  lemma LowWord(count: nat)
    ensures count % TWO_64 % TWO_32 == count % TWO_32
  {
    var q, r := count / TWO_64, count % TWO_64;
    var p, t := r / TWO_32, r % TWO_32;
    Remainder32(count, TWO_32 * q + p, t);
  }

  /** `bytes_sent - to_send`, cut to 32 bits, is the number of bytes accepted before. */
  lemma CounterIsOffset(count: nat, n: nat)
    requires n <= WINDOW
    ensures ((count % TWO_64 + n) % TWO_64 - n) % TWO_64 % TWO_32 == count % TWO_32
  {
    CounterSubtracts(count % TWO_64, n);
    LowWord(count);
  }

  /** The world after `send_data` took the first n bytes. */
  function DataSent(w: World, id: Uuid, data: seq<byte>, o: ByteOrder): World
    requires id in w.logs
  {
    Next(w, ClientData(id, data), o)
  }

  function DataFrame(id: Uuid, count: nat, data: seq<byte>): (f: FrameBytes)
    requires |data| <= MAX_DATA
    ensures Exact(f) && f[0] == TCP_DATA && IdOf(f) == id && Part(id, f) == data && Numbered(f, count)
  {
    DataIsExact(id, count % TWO_32, data);
    EncodeData(id, count % TWO_32, data)
  }

  /** What `send_data` does to an established connection with room. */
  lemma SendSpelledOut(s: Server, id: Uuid, l: Log, isOpen: bool, data: seq<byte>, n: nat)
    requires Text(id) in s.conns && ConnOk(s.conns[Text(id)], l, isOpen)
    requires n == Takes(s, Text(id), |data|) > 0
    ensures var c := s.conns[Text(id)];
            && n <= MAX_DATA && |c.sendBuffer| + n <= WINDOW && isOpen
            && AfterSend(s, Text(id), data) ==
               SendResult(Transmit(s.(conns := s.conns[Text(id) := Buffered(c, data[..n])]),
                                   DataFrame(id, |l.accepted|, data[..n])), n)
  {
    hide Text, Parse, EncodeData;
    ParseInvertsText(id);
    CounterIsOffset(|l.accepted|, n);
    var c := s.conns[Text(id)];
    assert (Buffered(c, data[..n]).bytesSent as int - n) % TWO_64 % TWO_32 == |l.accepted| % TWO_32;
  }

  lemma SentDown(w: World, id: Uuid, data: seq<byte>)
    requires Wired(w) && id in w.logs && DownOk(id, w.logs[id], w.server.linkUp, Frames(w.server.wire))
    requires Opened(id, Frames(w.server.wire)) && |data| <= MAX_DATA
    ensures var l := w.logs[id].(accepted := w.logs[id].accepted + data);
            var fs := FramesAfter(w, DataFrame(id, |w.logs[id].accepted|, data));
            DownOk(id, l, w.server.linkUp, fs) && Opened(id, fs)
  {
    Append(id, Frames(w.server.wire), DataFrame(id, |w.logs[id].accepted|, data));
  }

  lemma SentConn(c: Conn, l: Log, isOpen: bool, data: seq<byte>)
    requires ConnOk(c, l, isOpen) && |c.sendBuffer| + |data| <= WINDOW
    ensures ConnOk(Buffered(c, data), l.(accepted := l.accepted + data), isOpen)
  {
    Associative(l.consumed, c.sendBuffer, data);
    CounterAdds(|l.accepted|, |data|);
  }

  lemma ClientDataKeeps(w: World, id: Uuid, data: seq<byte>, o: ByteOrder)
    requires Inv(w) && id in w.logs
    ensures Inv(DataSent(w, id, data, o))
  {
    var w', n := DataSent(w, id, data, o), Takes(w.server, Text(id), |data|);
    if n == 0 {
      assert w.logs[id].accepted + data[..0] == w.logs[id].accepted;
      assert w.logs[id := w.logs[id]] == w.logs;
      assert w' == w;
    } else {
      assert Good(w, id);
      SomeDataKeeps(w, id, data, n, o);
    }
  }

  lemma SentGood(w: World, id: Uuid, data: seq<byte>, n: nat, o: ByteOrder)
    requires Wired(w) && id in w.logs && n == Takes(w.server, Text(id), |data|) > 0
    requires Good(w, id)
    ensures n <= MAX_DATA && ServerWrites(w, DataSent(w, id, data, o), DataFrame(id, |w.logs[id].accepted|, data[..n]))
    ensures Wired(DataSent(w, id, data, o)) && Good(DataSent(w, id, data, o), id)
    ensures DataSent(w, id, data, o).server.conns.Keys == w.server.conns.Keys
    ensures forall key :: key in w.server.conns && key != Text(id) ==>
              DataSent(w, id, data, o).server.conns[key] == w.server.conns[key]
  {
    hide Stream, Orderly, Scan, Parse, InlineData, HandleFrames, AgentOk;
    var l, fs := w.logs[id], Frames(w.server.wire);
    SendSpelledOut(w.server, id, l, Opened(id, fs), data, n);
    ServerWritesKeepsWire(w, DataSent(w, id, data, o), DataFrame(id, |l.accepted|, data[..n]));
    SentDown(w, id, data[..n]);
    SentConn(w.server.conns[Text(id)], l, true, data[..n]);
  }

  lemma SomeDataKeeps(w: World, id: Uuid, data: seq<byte>, n: nat, o: ByteOrder)
    requires Inv(w) && id in w.logs && n == Takes(w.server, Text(id), |data|) > 0
    requires Good(w, id)
    ensures Inv(DataSent(w, id, data, o))
  {
    hide Stream, Orderly, Scan, Parse, InlineData, Part, HandleFrames;
    var w' := DataSent(w, id, data, o);
    SentGood(w, id, data, n, o);
    var f := DataFrame(id, |w.logs[id].accepted|, data[..n]);
    ServerWritesKeepsWire(w, w', f);
    KnownAppend(Frames(w.server.wire), f, w.logs, w'.logs);
    SameIds(w, w');
    forall u | u in w'.logs ensures Good(w', u) {
      if u != id {
        TextIsInjective(u, id);
        OthersStayGood(w, w', f, u);
      }
    }
  }

  /** Ids stay known when no entry is added anywhere. */
  lemma SameIds(w: World, w': World)
    requires Wired(w) && IdsKnown(w) && Wired(w')
    requires w'.logs.Keys == w.logs.Keys && w'.server.conns.Keys <= w.server.conns.Keys
    requires KnownFrames(Frames(w'.server.wire), w'.logs)
    requires w'.agentFramed ==> AgentKnown(w'.agent, w'.logs)
    ensures IdsKnown(w')
  {
    forall key | key in w'.server.conns ensures KeyKnown(key, w'.logs) {
      assert KeyKnown(key, w.logs);
    }
  }

  // ----- steps that rewrite one table entry -----

  function WithEntry(w: World, id: Uuid, c: Conn, l: Log): World {
    w.(server := w.server.(conns := w.server.conns[Text(id) := c]), logs := w.logs[id := l])
  }

  lemma EntryKeeps(w: World, id: Uuid, c: Conn, l: Log)
    requires Inv(w) && id in w.logs && Text(id) in w.server.conns
    requires l.accepted == w.logs[id].accepted && ConnOk(c, l, Opened(id, Frames(w.server.wire)))
    requires w.agentFramed && w.serverFramed ==> UpOk(id, l, w.agent.sent, w.returned)
    ensures Inv(WithEntry(w, id, c, l))
  {
    hide Stream, Orderly, Scan, Parse, InlineData, Part, HandleFrames;
    var w' := WithEntry(w, id, c, l);
    KnownMore(Frames(w.server.wire), w.logs, w'.logs);
    SameIds(w, w');
    forall u | u in w'.logs ensures Good(w', u) {
      TextIsInjective(u, id);
      assert Good(w, u);
    }
  }

  lemma KnownMore(fs: seq<FrameBytes>, logs: map<Uuid, Log>, more: map<Uuid, Log>)
    requires KnownFrames(fs, logs) && logs.Keys <= more.Keys
    ensures KnownFrames(fs, more)
  {
    forall i | 0 <= i < |fs| ensures KnownFrame(fs[i], more) {
      KnownStays(fs[i], logs, more);
    }
  }

  lemma NextWindowUpdate(w: World, id: Uuid, count: nat, o: ByteOrder)
    requires id in w.logs
    ensures var key, l := Text(id), w.logs[id];
            Next(w, WindowUpdate(id, count), o)
            == if key in w.server.conns && count <= |w.server.conns[key].sendBuffer| then
                 (var c := w.server.conns[key];
                  WithEntry(w, id, c.(sendBuffer := c.sendBuffer[count..]),
                            l.(consumed := l.consumed + c.sendBuffer[..count])))
               else w
  {
    hide Text, HandleFrames, Scan, Parse, InlineData;
    Whole(w.logs[id].consumed);
    assert w.logs[id := w.logs[id]] == w.logs;
  }

  lemma WindowUpdateKeeps(w: World, id: Uuid, count: nat, o: ByteOrder)
    requires Inv(w) && id in w.logs
    ensures Inv(Next(w, WindowUpdate(id, count), o))
  {
    hide Stream, Orderly, Scan, Parse, InlineData, Part, HandleFrames, Next;
    var key, l := Text(id), w.logs[id];
    NextWindowUpdate(w, id, count, o);
    if key in w.server.conns && count <= |w.server.conns[key].sendBuffer| {
      assert Good(w, id);
      var c := w.server.conns[key];
      assert c.sendBuffer == c.sendBuffer[..count] + c.sendBuffer[count..];
      Associative(l.consumed, c.sendBuffer[..count], c.sendBuffer[count..]);
      EntryKeeps(w, id, c.(sendBuffer := c.sendBuffer[count..]), l.(consumed := l.consumed + c.sendBuffer[..count]));
    }
  }

  lemma IssuedLength(c: Conn)
    ensures |Concat(IssueWrite(c).writes)| == |Concat(c.writes)| + |c.recvBuffer|
  {
    if c.recvBuffer != [] { ConcatAppend(c.writes, c.recvBuffer); }
  }

  lemma WriteDoneKeeps(c: Conn, l: Log, isOpen: bool)
    requires ConnOk(c, l, isOpen) && c.writes != []
    ensures ConnOk(CompleteWrite(c), l, isOpen)
  {
    var block := c.writes[0];
    var rest := if |block| <= |c.recvBuffer| then c.recvBuffer[|block|..] else [];
    if l.overlapped {
      IssuedLength(c.(recvBuffer := rest, writes := c.writes[1..], delivered := c.delivered + block));
    } else {
      assert c.recvBuffer == block + rest;
      Associative(c.delivered, block, rest);
    }
  }

  lemma TableIdsAreKnown(w: World, id: Uuid)
    requires Wired(w) && IdsKnown(w) && Text(id) in w.server.conns
    ensures id in w.logs
  {
    assert KeyKnown(Text(id), w.logs);
    ParseInvertsText(id);
  }

  lemma WrittenEntry(w: World, id: Uuid)
    requires Wired(w) && id in w.logs && Good(w, id)
    requires Text(id) in w.server.conns && w.server.conns[Text(id)].writes != []
    ensures ConnOk(CompleteWrite(w.server.conns[Text(id)]), w.logs[id], Opened(id, Frames(w.server.wire)))
  {
    WriteDoneKeeps(w.server.conns[Text(id)], w.logs[id], Opened(id, Frames(w.server.wire)));
  }

  lemma WrittenIsEntry(w: World, id: Uuid, o: ByteOrder)
    requires Enabled(w, ClientWritten(id)) && id in w.logs
    ensures Next(w, ClientWritten(id), o) == WithEntry(w, id, CompleteWrite(w.server.conns[Text(id)]), w.logs[id])
  {
    assert w.logs[id := w.logs[id]] == w.logs;
  }

  lemma ClientWrittenKeeps(w: World, id: Uuid, o: ByteOrder)
    requires Inv(w) && Enabled(w, ClientWritten(id))
    ensures Inv(Next(w, ClientWritten(id), o))
  {
    hide Stream, Orderly, Scan, Parse, InlineData, Part, HandleFrames;
    TableIdsAreKnown(w, id);
    WrittenIsEntry(w, id, o);
    assert Good(w, id);
    var c := CompleteWrite(w.server.conns[Text(id)]);
    WrittenEntry(w, id);
    EntryKeeps(w, id, c, w.logs[id]);
  }

  // ----- closing at the server -----

  function Closed(w: World, id: Uuid, graceful: bool): World {
    w.(server := AfterClose(w.server, Text(id), graceful))
  }

  function ServerCloseFrame(id: Uuid): (f: FrameBytes)
    ensures Exact(f) && f[0] == TCP_CLOSE && IdOf(f) == CloseId(id)
  {
    CloseIsExact(Text(id));
    CloseFrame(Text(id))
  }

  lemma ClosedEntryGood(w: World, id: Uuid, graceful: bool)
    requires Wired(w) && id in w.logs && NoClash(w.logs) && Good(w, id) && Text(id) in w.server.conns
    ensures ServerWrites(w, Closed(w, id, graceful), ServerCloseFrame(id))
    ensures Wired(Closed(w, id, graceful)) && Good(Closed(w, id, graceful), id)
  {
    hide Stream, Orderly, Scan, Parse, InlineData, Part, HandleFrames;
    var w' := Closed(w, id, graceful);
    ServerWritesKeepsWire(w, w', ServerCloseFrame(id));
    assert CloseId(id) != id;
    Elsewhere(id, w.logs[id], w.server.linkUp, Frames(w.server.wire), ServerCloseFrame(id));
  }

  lemma ServerCloseKeeps(w: World, id: Uuid, graceful: bool)
    requires Inv(w) && id in w.logs
    ensures Inv(Closed(w, id, graceful))
  {
    hide Stream, Orderly, Scan, Parse, InlineData, Part, HandleFrames;
    if Text(id) in w.server.conns {
      var w', f := Closed(w, id, graceful), ServerCloseFrame(id);
      assert Good(w, id);
      ClosedEntryGood(w, id, graceful);
      ServerWritesKeepsWire(w, w', f);
      assert KnownFrame(f, w.logs) by { assert id in w.logs && CloseId(id) == IdOf(f); }
      KnownAppend(Frames(w.server.wire), f, w.logs, w'.logs);
      SameIds(w, w');
      forall u | u in w'.logs ensures Good(w', u) {
        if u != id {
          TextIsInjective(u, id);
          assert CloseId(id) != u;
          OthersStayGood(w, w', f, u);
        }
      }
    }
  }

  lemma LinkLostKeeps(w: World, o: ByteOrder)
    requires Inv(w)
    ensures Inv(Next(w, LinkLost, o))
  {
    var w' := Next(w, LinkLost, o);
    SameIds(w, w');
    forall u | u in w'.logs ensures Good(w', u) {
      assert Good(w, u);
    }
  }

  // ----- the agent reads -----

  lemma HandleOther(id: Uuid, a: Agent, f: FrameBytes)
    requires IdOf(f) != id
    ensures var a' := HandleFrame(a, f);
            && (id in a'.conns <==> id in a.conns) && (id in a.conns ==> a'.conns[id] == a.conns[id])
            && (id in a'.retired <==> id in a.retired) && (id in a.retired ==> a'.retired[id] == a.retired[id])
  {
  }

  lemma HandleData(id: Uuid, a: Agent, fs: seq<FrameBytes>, data: seq<byte>)
    requires AgentOk(id, a, fs) && Opened(id, fs)
    ensures var a' := OnData(a, id, data);
            if id in a'.conns then
              && id !in a'.retired
              && a'.conns[id].issued + Concat(a'.conns[id].pending) == Stream(id, fs) + data
              && (a'.conns[id].connected ==> a'.conns[id].pending == [])
            else id in a'.retired && a'.retired[id].issued + Concat(a'.retired[id].pending) <= Stream(id, fs) + data
  {
    if id in a.conns {
      var c := a.conns[id];
      if c.connected {
        Whole(c.issued);
        Whole(c.issued + data);
        assert Concat(c.pending) == [];
      } else {
        ConcatAppend(c.pending, data);
        Associative(c.issued, Concat(c.pending), data);
      }
    }
  }

  lemma HandleKeeps(id: Uuid, a: Agent, fs: seq<FrameBytes>, f: FrameBytes)
    requires AgentOk(id, a, fs) && Orderly(id, fs + [f])
    ensures AgentOk(id, HandleFrame(a, f), fs + [f])
  {
    Append(id, fs, f);
    Whole(Stream(id, fs));
    if IdOf(f) != id {
      HandleOther(id, a, f);
    } else if f[0] == TCP_OPEN {
      NothingBeforeOpen(id, fs);
      assert Concat<byte>([]) == [];
    } else {
      HandleData(id, a, fs, InlineData(f).bytes);
    }
  }

  lemma {:induction false} HandleAllKeeps(id: Uuid, a: Agent, fs: seq<FrameBytes>, more: seq<FrameBytes>)
    requires AgentOk(id, a, fs) && Orderly(id, fs + more)
    ensures AgentOk(id, HandleFrames(a, more), fs + more)
  {
    if more == [] {
      Whole(fs);
    } else {
      var front, last := more[..|more| - 1], more[|more| - 1];
      assert more == front + [last];
      Associative(fs, front, [last]);
      OrderlyPrefix(id, fs + front, [last]);
      HandleAllKeeps(id, a, fs, front);
      HandleFramesAppend(a, front, last);
      HandleKeeps(id, HandleFrames(a, front), fs + front, last);
    }
  }

  lemma {:induction false} HandleAllKnown(a: Agent, fs: seq<FrameBytes>, logs: map<Uuid, Log>)
    requires LongFrames(a.sent) && AgentKnown(a, logs) && KnownFrames(fs, logs)
    ensures HandleFrames(a, fs).sent == a.sent && AgentKnown(HandleFrames(a, fs), logs)
    decreases |fs|
  {
    if fs != [] {
      assert KnownFrame(fs[0], logs);
      assert forall i :: 0 <= i < |fs[1..]| ==> fs[1..][i] == fs[i + 1];
      HandleAllKnown(HandleFrame(a, fs[0]), fs[1..], logs);
    }
  }

  /** The next read: the frames that arrive are a middle piece of the wire's frames. */
  lemma ReadIsMiddle(w: World, count: nat)
    requires Wired(w) && w.agentFramed && Enabled(w, AgentRead(count))
    requires Framed(w.server.wire[w.arrived..w.arrived + count])
    ensures var wire, chunk := w.server.wire, w.server.wire[w.arrived..w.arrived + count];
            && Framed(wire[..w.arrived + count])
            && Frames(wire[..w.arrived + count]) == Frames(wire[..w.arrived]) + Frames(chunk)
            && Frames(wire) == Frames(wire[..w.arrived + count]) + Frames(wire[w.arrived + count..])
  {
    hide Scan, Complete, FrameSize;
    var wire, n := w.server.wire, w.arrived + count;
    assert wire[..n] == wire[..w.arrived] + wire[w.arrived..n];
    FramedConcat(wire[..w.arrived], wire[w.arrived..n]);
    assert wire == wire[..n] + wire[n..];
    FramedConcat(wire[..n], wire[n..]);
  }

  lemma {:induction false} HandleAllSendsNothing(a: Agent, fs: seq<FrameBytes>)
    ensures HandleFrames(a, fs).sent == a.sent
    decreases |fs|
  {
    if fs != [] { HandleAllSendsNothing(HandleFrame(a, fs[0]), fs[1..]); }
  }

  /** Once a read of the agent has cut a frame, nothing is claimed of the agent, and whatever it does
      changes nothing at the server. */
  lemma StrayAgentKeeps(w: World, w': World)
    requires Inv(w) && !w'.agentFramed && w'.serverFramed == w.serverFramed
    requires w'.server == w.server && w'.arrived <= |w.server.wire| && LongFrames(w'.agent.sent)
    requires w'.returned == w.returned <= |w'.agent.sent| && w'.logs.Keys == w.logs.Keys
    requires forall u :: u in w.logs ==> w'.logs[u] == w.logs[u].(localRead := w'.logs[u].localRead)
    ensures Inv(w')
  {
    hide Stream, Orderly, Scan, Parse, InlineData, Part, HandleFrames;
    KnownMore(Frames(w.server.wire), w.logs, w'.logs);
    SameIds(w, w');
    forall u | u in w'.logs ensures Good(w', u) {
      assert Good(w, u);
    }
  }

  lemma AgentReadKeeps(w: World, count: nat, o: ByteOrder)
    requires Inv(w) && Enabled(w, AgentRead(count))
    ensures Inv(Next(w, AgentRead(count), o))
  {
    var chunk := w.server.wire[w.arrived..w.arrived + count];
    if w.agentFramed && Framed(chunk) {
      FramedReadKeeps(w, count, o);
    } else {
      HandleAllSendsNothing(w.agent, Frames(chunk));
      hide HandleFrames, Frames, Framed, Inv;
      assert Wired(w) by { InvIsWired(w); }
      StrayAgentKeeps(w, Next(w, AgentRead(count), o));
    }
  }

  lemma InvIsWired(w: World)
    requires Inv(w)
    ensures Wired(w) && IdsKnown(w)
  {
  }

  lemma FramedReadKeeps(w: World, count: nat, o: ByteOrder)
    requires Inv(w) && Enabled(w, AgentRead(count)) && w.agentFramed
    requires Framed(w.server.wire[w.arrived..w.arrived + count])
    ensures Inv(Next(w, AgentRead(count), o))
  {
    hide Stream, Orderly, Scan, Parse, InlineData, Part, HandleFrames;
    var w', chunk := Next(w, AgentRead(count), o), w.server.wire[w.arrived..w.arrived + count];
    var before, read := Frames(w.server.wire[..w.arrived]), Frames(chunk);
    ReadIsMiddle(w, count);
    var rest := Frames(w.server.wire[w.arrived + count..]);
    assert KnownFrames(read, w.logs) by {
      forall i | 0 <= i < |read| ensures KnownFrame(read[i], w.logs) {
        assert read[i] == Frames(w.server.wire)[|before| + i];
      }
    }
    HandleAllKnown(w.agent, read, w.logs);
    forall u | u in w'.logs ensures Good(w', u) {
      assert Good(w, u);
      OrderlyPrefix(u, before + read, rest);
      HandleAllKeeps(u, w.agent, before, read);
    }
  }

  // ----- events at the agent's local sockets -----

  /** The agent's tables differ only at one connection, and only its frames were sent. */
  ghost predicate LocalChange(a: Agent, a': Agent, id: Uuid, out: seq<FrameBytes>) {
    && a'.conns.Keys <= a.conns.Keys && a'.retired.Keys <= a.retired.Keys + {id}
    && (forall u {:trigger AgentSame(u, a, a')} :: u != id ==> AgentSame(u, a, a'))
    && a'.sent == a.sent + out && (forall i :: 0 <= i < |out| ==> IdOf(out[i]) == id)
  }

  lemma LocalStepKeeps(w: World, w': World, id: Uuid, out: seq<FrameBytes>)
    requires Inv(w) && w.agentFramed && id in w.logs && LocalChange(w.agent, w'.agent, id, out) && |out| <= 1
    requires w'.server == w.server && w'.arrived == w.arrived && w'.returned == w.returned
    requires w'.agentFramed == w.agentFramed && w'.serverFramed == w.serverFramed
    requires id in w'.logs && w'.logs == w.logs[id := w'.logs[id]] && Wired(w') && Good(w', id)
    ensures Inv(w')
  {
    hide Stream, Orderly, Scan, Parse, InlineData, Part, HandleFrames;
    KnownMore(Frames(w.server.wire), w.logs, w'.logs);
    SameIds(w, w');
    forall u | u in w'.logs ensures Good(w', u) {
      if u != id {
        OthersUnmoved(w, w', id, out, u);
      }
    }
  }

  lemma OthersUnmoved(w: World, w': World, id: Uuid, out: seq<FrameBytes>, u: Uuid)
    requires Wired(w) && u in w.logs && u != id && Good(w, u) && Wired(w')
    requires LocalChange(w.agent, w'.agent, id, out) && |out| <= 1 && w.agentFramed
    requires w'.server == w.server && w'.arrived == w.arrived && w'.returned == w.returned
    requires w'.agentFramed == w.agentFramed && w'.serverFramed == w.serverFramed
    requires u in w'.logs && w'.logs[u] == w.logs[u]
    ensures Good(w', u)
  {
    hide Stream, Orderly, Scan, Parse, InlineData, HandleFrames;
    assert AgentSame(u, w.agent, w'.agent);
    if out == [] {
      Whole(w.agent.sent);
    } else if w.serverFramed {
      assert out == [out[0]];
      SentElsewhere(u, w.logs[u], w.agent.sent, w.returned, out[0]);
    }
  }

  predicate AgentSame(u: Uuid, a: Agent, b: Agent) {
    && (u in b.conns <==> u in a.conns) && (u in a.conns ==> b.conns[u] == a.conns[u])
    && (u in b.retired <==> u in a.retired) && (u in a.retired ==> b.retired[u] == a.retired[u])
  }

  lemma SentElsewhere(u: Uuid, l: Log, sent: seq<FrameBytes>, returned: nat, f: FrameBytes)
    requires returned <= |sent| && UpOk(u, l, sent, returned)
    ensures UpOk(u, l.(localRead := l.localRead + Part(u, f)), sent + [f], returned)
    ensures Part(u, f) == [] ==> UpOk(u, l, sent + [f], returned)
  {
    Append(u, sent, f);
    CutConcat(sent, [f], returned);
    Whole(l.localRead);
  }

  lemma ConnectIsLocal(a: Agent, id: Uuid)
    requires id in a.conns
    ensures LocalChange(a, OnConnected(a, id), id, [])
  {
    Whole(a.sent);
  }

  lemma CloseIsLocal(a: Agent, id: Uuid)
    ensures LocalChange(a, OnClose(a, id), id, [])
  {
    Whole(a.sent);
  }

  function AgentClosing(id: Uuid, reason: u16): (f: FrameBytes)
    ensures IdOf(f) == id && f[0] == TCP_CLOSE
  {
    AgentCloseFrame(id, reason)
  }

  function AgentData(id: Uuid, sequence: u32, data: seq<byte>): (f: FrameBytes)
    requires |data| <= MAX_DATA
    ensures IdOf(f) == id && Part(id, f) == data
  {
    DataIsExact(id, sequence, data);
    EncodeData(id, sequence, data)
  }

  lemma LateConnectIsLocal(a: Agent, id: Uuid)
    requires id in a.retired
    ensures LocalChange(a, OnLateConnected(a, id), id, [])
  {
    Whole(a.sent);
  }

  lemma LateConnectedOk(id: Uuid, a: Agent, fs: seq<FrameBytes>)
    requires AgentOk(id, a, fs) && id !in a.conns && id in a.retired
    ensures AgentOk(id, OnLateConnected(a, id), fs)
  {
    var c := a.retired[id];
    Whole(c.issued + Concat(c.pending));
    assert Concat<byte>([]) == [];
  }

  lemma ConnectedOk(id: Uuid, a: Agent, fs: seq<FrameBytes>)
    requires AgentOk(id, a, fs) && id in a.conns
    ensures AgentOk(id, OnConnected(a, id), fs)
  {
    var c := a.conns[id];
    Whole(c.issued + Concat(c.pending));
    assert Concat<byte>([]) == [];
  }

  lemma LocalConnectedKeeps(w: World, id: Uuid, o: ByteOrder)
    requires Inv(w) && w.agentFramed && Enabled(w, LocalConnected(id))
    ensures Inv(Next(w, LocalConnected(id), o))
  {
    hide Stream, Orderly, Scan, Parse, InlineData, Part, HandleFrames;
    assert Good(w, id);
    if id in w.agent.conns {
      ConnectIsLocal(w.agent, id);
      ConnectedOk(id, w.agent, Frames(w.server.wire[..w.arrived]));
    } else {
      LateConnectIsLocal(w.agent, id);
      LateConnectedOk(id, w.agent, Frames(w.server.wire[..w.arrived]));
    }
    assert w.logs == w.logs[id := w.logs[id]];
    LocalStepKeeps(w, Next(w, LocalConnected(id), o), id, []);
  }

  lemma FailIsLocal(a: Agent, id: Uuid)
    ensures LocalChange(a, OnConnectFailed(a, id), id, [AgentClosing(id, 1)])
  {
  }

  lemma LocalConnectFailedKeeps(w: World, id: Uuid, o: ByteOrder)
    requires Inv(w) && w.agentFramed && Enabled(w, LocalConnectFailed(id))
    ensures Inv(Next(w, LocalConnectFailed(id), o))
  {
    hide Stream, Orderly, Scan, Parse, InlineData, HandleFrames;
    assert Good(w, id);
    if w.serverFramed { SentElsewhere(id, w.logs[id], w.agent.sent, w.returned, AgentClosing(id, 1)); }
    assert w.logs == w.logs[id := w.logs[id]];
    FailIsLocal(w.agent, id);
    LocalStepKeeps(w, Next(w, LocalConnectFailed(id), o), id, [AgentClosing(id, 1)]);
  }

  lemma LocalDataIsLocal(a: Agent, id: Uuid, data: seq<byte>)
    requires id in a.conns && |data| <= MAX_DATA
    ensures LocalChange(a, OnLocalData(a, id, data), id, [AgentData(id, a.conns[id].sequence, data)])
  {
  }

  lemma LocalBytesKeeps(w: World, id: Uuid, data: seq<byte>, o: ByteOrder)
    requires Inv(w) && w.agentFramed && Enabled(w, LocalBytes(id, data))
    ensures Inv(Next(w, LocalBytes(id, data), o))
  {
    hide Stream, Orderly, Scan, Parse, InlineData, Part, HandleFrames;
    assert Good(w, id);
    var f := AgentData(id, w.agent.conns[id].sequence, data);
    if w.serverFramed { SentElsewhere(id, w.logs[id], w.agent.sent, w.returned, f); }
    LocalDataIsLocal(w.agent, id, data);
    LocalStepKeeps(w, Next(w, LocalBytes(id, data), o), id, [f]);
  }

  lemma ClosedOk(id: Uuid, a: Agent, fs: seq<FrameBytes>)
    requires AgentOk(id, a, fs)
    ensures AgentOk(id, OnClose(a, id), fs)
  {
  }

  lemma LocalWriteFailedKeeps(w: World, id: Uuid, o: ByteOrder)
    requires Inv(w) && w.agentFramed && Enabled(w, LocalWriteFailed(id))
    ensures Inv(Next(w, LocalWriteFailed(id), o))
  {
    hide Stream, Orderly, Scan, Parse, InlineData, Part, HandleFrames;
    assert Good(w, id);
    CloseIsLocal(w.agent, id);
    ClosedOk(id, w.agent, Frames(w.server.wire[..w.arrived]));
    assert w.logs == w.logs[id := w.logs[id]];
    LocalStepKeeps(w, Next(w, LocalWriteFailed(id), o), id, []);
  }

  lemma EndIsLocal(a: Agent, id: Uuid)
    ensures LocalChange(a, OnLocalClosed(a, id), id, [AgentClosing(id, 0)])
  {
    CloseIsLocal(a.(sent := a.sent + [AgentClosing(id, 0)]), id);
  }

  lemma LocalEndKeeps(w: World, id: Uuid, o: ByteOrder)
    requires Inv(w) && w.agentFramed && Enabled(w, LocalEnd(id))
    ensures Inv(Next(w, LocalEnd(id), o))
  {
    hide Stream, Orderly, Scan, Parse, InlineData, HandleFrames;
    assert Good(w, id);
    if w.serverFramed { SentElsewhere(id, w.logs[id], w.agent.sent, w.returned, AgentClosing(id, 0)); }
    EndIsLocal(w.agent, id);
    ClosedOk(id, w.agent, Frames(w.server.wire[..w.arrived]));
    assert w.logs == w.logs[id := w.logs[id]];
    LocalStepKeeps(w, Next(w, LocalEnd(id), o), id, [AgentClosing(id, 0)]);
  }

  // ----- the server reads a frame from the agent -----

  lemma ReturnedGrows(id: Uuid, sent: seq<FrameBytes>, returned: nat)
    requires returned < |sent|
    ensures Stream(id, sent[..returned + 1]) == Stream(id, sent[..returned]) + Part(id, sent[returned])
  {
    assert sent[..returned + 1] == sent[..returned] + [sent[returned]];
    Append(id, sent[..returned], sent[returned]);
  }

  lemma UpElsewhere(u: Uuid, l: Log, sent: seq<FrameBytes>, returned: nat)
    requires returned < |sent| && UpOk(u, l, sent, returned) && IdOf(sent[returned]) != u
    ensures UpOk(u, l, sent, returned + 1)
  {
    ReturnedGrows(u, sent, returned);
    Whole(Stream(u, sent[..returned]));
  }

  lemma ReceivedConn(c: Conn, l: Log, isOpen: bool, fits: bool, payload: seq<byte>)
    requires ConnOk(c, l, isOpen) && fits == (|c.recvBuffer| + |payload| <= WINDOW)
    ensures ConnOk(IssueWrite(if fits then Received(c, payload) else c),
                   Receive(l, fits, c.writes != [], payload), isOpen)
  {
    var arrived := if fits then Received(c, payload) else c;
    if fits {
      Associative(c.delivered, c.recvBuffer, payload);
      CounterAdds(|l.received|, |payload|);
    }
    IssuedLength(arrived);
    if !l.overlapped && c.writes != [] {
      assert |Concat(c.writes)| >= |c.writes[0]| > 0;
    }
  }

  lemma PayloadIsEntry(w: World, id: Uuid, payload: seq<byte>, l: Log)
    requires id in w.logs
    ensures w.(server := AfterWrite(AfterReceive(w.server, Text(id), payload), Text(id)), logs := w.logs[id := l])
            == if Text(id) in w.server.conns then
                 (var c := w.server.conns[Text(id)];
                  WithEntry(w, id, IssueWrite(if Fits(w.server, id, payload) then Received(c, payload) else c), l))
               else w.(logs := w.logs[id := l])
  {
    hide Text, IssueWrite, Received;
    if Text(id) in w.server.conns {
      assert w.server.conns[Text(id) := w.server.conns[Text(id)]] == w.server.conns;
    }
  }

  /** The log and, if there is one, the table entry after a payload arrives for a connection. */
  lemma PayloadKeeps(w: World, id: Uuid, payload: seq<byte>)
    requires Inv(w) && !w.serverFramed && id in w.logs
    ensures var l := Receive(w.logs[id], Fits(w.server, id, payload), Writing(w.server, id), payload);
            Inv(w.(server := AfterWrite(AfterReceive(w.server, Text(id), payload), Text(id)), logs := w.logs[id := l]))
  {
    hide Inv, ConnOk, Text, AfterWrite, AfterReceive, IssueWrite, Received;
    var l := Receive(w.logs[id], Fits(w.server, id, payload), Writing(w.server, id), payload);
    PayloadIsEntry(w, id, payload, l);
    if Text(id) in w.server.conns {
      EntryIsOk(w, id);
      var c := w.server.conns[Text(id)];
      var fits := Fits(w.server, id, payload);
      ReceivedConn(c, w.logs[id], Opened(id, Frames(w.server.wire)), fits, payload);
      EntryKeeps(w, id, IssueWrite(if fits then Received(c, payload) else c), l);
    } else {
      LogKeeps(w, id, l);
    }
  }

  lemma EntryIsOk(w: World, id: Uuid)
    requires Inv(w) && id in w.logs && Text(id) in w.server.conns
    ensures ConnOk(w.server.conns[Text(id)], w.logs[id], Opened(id, Frames(w.server.wire)))
  {
    hide Stream, Orderly, Scan, Parse, InlineData, Part, HandleFrames, Text;
    assert Good(w, id);
  }

  lemma LogKeeps(w: World, id: Uuid, l: Log)
    requires Inv(w) && !w.serverFramed && id in w.logs && Text(id) !in w.server.conns
    requires l.accepted == w.logs[id].accepted
    ensures Inv(w.(logs := w.logs[id := l]))
  {
    hide Stream, Orderly, Scan, Parse, InlineData, Part, HandleFrames, Text;
    var w' := w.(logs := w.logs[id := l]);
    KnownMore(Frames(w.server.wire), w.logs, w'.logs);
    SameIds(w, w');
    forall u | u in w'.logs ensures Good(w', u) {
      assert Good(w, u);
    }
  }

  /** Bytes for an id that was never created change nothing. */
  lemma UnknownIsIgnored(w: World, bytes: seq<byte>)
    requires Inv(w) && |bytes| >= 17 && bytes[1..17] !in w.logs
    ensures TakeRead(w, bytes) == w
  {
    hide Stream, Orderly, Scan, Parse, InlineData, Part, HandleFrames, Text;
    var id: Uuid := bytes[1..17];
    if Text(id) in w.server.conns { TableIdsAreKnown(w, id); }
  }

  /** What a read does, by its first byte. */
  lemma TakeReadCases(w: World, bytes: seq<byte>, id: Uuid)
    requires |bytes| >= 17 && id == bytes[1..17] && id in w.logs
    ensures if bytes[0] == TCP_DATA && InlineData(bytes).Payload? then
              var payload := InlineData(bytes).bytes;
              var l := Receive(w.logs[id], Fits(w.server, id, payload), Writing(w.server, id), payload);
              TakeRead(w, bytes)
              == w.(server := AfterWrite(AfterReceive(w.server, Text(id), payload), Text(id)),
                    logs := w.logs[id := l])
            else if bytes[0] == TCP_CLOSE then TakeRead(w, bytes) == Closed(w, id, true)
            else if bytes[0] == TCP_ERROR && |bytes| >= 21 then TakeRead(w, bytes) == Closed(w, id, false)
            else TakeRead(w, bytes) == w
  {
    hide Text, InlineData, AfterWrite, AfterReceive, AfterClose, Receive, Fits, Writing;
  }

  /** Whatever bytes the server reads. */
  lemma TakeReadKeeps(w: World, bytes: seq<byte>)
    requires Inv(w) && !w.serverFramed
    ensures Inv(TakeRead(w, bytes))
  {
    hide Inv, TakeRead, InlineData, Receive;
    if |bytes| < 17 {
      ShortReadIsIgnored(w, bytes);
    } else if bytes[1..17] !in w.logs {
      UnknownIsIgnored(w, bytes);
    } else {
      var id: Uuid := bytes[1..17];
      TakeReadCases(w, bytes, id);
      if bytes[0] == TCP_DATA && InlineData(bytes).Payload? {
        PayloadKeeps(w, id, InlineData(bytes).bytes);
      } else if bytes[0] == TCP_CLOSE {
        ServerCloseKeeps(w, id, true);
      } else if bytes[0] == TCP_ERROR && |bytes| >= 21 {
        ServerCloseKeeps(w, id, false);
      }
    }
  }

  lemma ShortReadIsIgnored(w: World, bytes: seq<byte>)
    requires |bytes| < 17
    ensures TakeRead(w, bytes) == w
  {
  }

  /** Forgetting that the server's reads were framed only weakens what is claimed. */
  lemma StrayServerKeeps(w: World)
    requires Inv(w)
    ensures Inv(w.(serverFramed := false))
  {
    hide Stream, Orderly, Scan, Parse, InlineData, Part, HandleFrames, Text;
    var w' := w.(serverFramed := false);
    assert IdsKnown(w');
    forall u | u in w'.logs ensures Good(w', u) {
      assert Good(w, u);
    }
  }

  /** Claiming it again needs what has come back for every connection. */
  lemma FramedServerKeeps(w: World, returned: nat, framed: bool)
    requires Inv(w) && !w.serverFramed && returned <= |w.agent.sent|
    requires w.agentFramed && framed ==>
               LongFrames(w.agent.sent) && forall u :: u in w.logs ==> UpOk(u, w.logs[u], w.agent.sent, returned)
    ensures Inv(w.(returned := returned, serverFramed := framed))
  {
    hide Stream, Orderly, Scan, Parse, InlineData, Part, HandleFrames, Text, UpOk;
    var w' := w.(returned := returned, serverFramed := framed);
    assert Wired(w') && IdsKnown(w');
    forall u | u in w'.logs ensures Good(w', u) {
      assert Good(w, u);
    }
  }

  lemma TakenUp(id: Uuid, l: Log, taken: bool, writing: bool, payload: seq<byte>, sent: seq<FrameBytes>, returned: nat)
    requires returned < |sent| && UpOk(id, l, sent, returned) && Part(id, sent[returned]) == payload
    ensures UpOk(id, Receive(l, taken, writing, payload), sent, returned + 1)
  {
    ReturnedGrows(id, sent, returned);
    Whole(Stream(id, sent[..returned]));
  }

  /** The next frame is read: what has come back grows by its payload or records a refusal. */
  lemma ReadUp(w: World, u: Uuid)
    requires LongFrames(w.agent.sent) && w.returned < |w.agent.sent| && u in w.logs
    requires UpOk(u, w.logs[u], w.agent.sent, w.returned)
    ensures u in TakeRead(w, w.agent.sent[w.returned]).logs
    ensures UpOk(u, TakeRead(w, w.agent.sent[w.returned]).logs[u], w.agent.sent, w.returned + 1)
  {
    hide Stream, UpOk, AfterAgentFrame;
    var f: FrameBytes := w.agent.sent[w.returned];
    if IdOf(f) != u {
      UpElsewhere(u, w.logs[u], w.agent.sent, w.returned);
    } else if f[0] == TCP_DATA && InlineData(f).Payload? {
      var payload := InlineData(f).bytes;
      TakenUp(u, w.logs[u], Fits(w.server, u, payload), Writing(w.server, u), payload, w.agent.sent, w.returned);
    } else {
      SilentUp(u, w.logs[u], w.agent.sent, w.returned);
    }
  }

  lemma SilentUp(id: Uuid, l: Log, sent: seq<FrameBytes>, returned: nat)
    requires returned < |sent| && UpOk(id, l, sent, returned) && Part(id, sent[returned]) == []
    ensures UpOk(id, l, sent, returned + 1)
  {
    ReturnedGrows(id, sent, returned);
    Whole(Stream(id, sent[..returned]));
  }

  lemma AllUp(w: World)
    requires Inv(w) && w.agentFramed && w.serverFramed
    ensures LongFrames(w.agent.sent) && w.returned <= |w.agent.sent|
    ensures forall u :: u in w.logs ==> UpOk(u, w.logs[u], w.agent.sent, w.returned)
  {
    hide Stream, Orderly, Scan, Parse, InlineData, Part, HandleFrames, Text, UpOk;
    forall u | u in w.logs ensures UpOk(u, w.logs[u], w.agent.sent, w.returned) {
      assert Good(w, u);
    }
  }

  lemma TakeReadFrame(w: World, bytes: seq<byte>)
    ensures var w' := TakeRead(w, bytes);
            && w'.agent == w.agent && w'.returned == w.returned && w'.logs.Keys == w.logs.Keys
            && w'.agentFramed == w.agentFramed && w'.serverFramed == w.serverFramed
    ensures TakeRead(w.(serverFramed := false), bytes) == TakeRead(w, bytes).(serverFramed := false)
  {
    hide AfterAgentFrame, InlineData, Text;
  }

  lemma ServerReadKeeps(w: World, o: ByteOrder)
    requires Inv(w) && Enabled(w, ServerRead)
    ensures Inv(Next(w, ServerRead, o))
  {
    hide Inv, TakeRead, UpOk;
    var f := w.agent.sent[w.returned];
    var w0 := w.(serverFramed := false);
    StrayServerKeeps(w);
    TakeReadKeeps(w0, f);
    TakeReadFrame(w, f);
    if w.agentFramed && w.serverFramed {
      AllUp(w);
      forall u | u in w.logs
        ensures UpOk(u, TakeRead(w, f).logs[u], w.agent.sent, w.returned + 1)
      {
        ReadUp(w, u);
      }
    }
    FramedServerKeeps(TakeRead(w0, f), w.returned + 1, w.serverFramed);
  }

  lemma ServerReadOtherKeeps(w: World, bytes: seq<byte>, o: ByteOrder)
    requires Inv(w)
    ensures Inv(Next(w, ServerReadOther(bytes), o))
  {
    hide Inv, TakeRead;
    StrayServerKeeps(w);
    TakeReadKeeps(w.(serverFramed := false), bytes);
    TakeReadFrame(w, bytes);
  }

  // ----- every run -----

  lemma InitialInv()
    ensures Inv(INITIAL)
  {
    var none: seq<byte> := [];
    assert Scan(none) == Scanned([], 0);
    Whole(none);
  }

  predicate IsLocal(step: Step) {
    step.LocalConnected? || step.LocalConnectFailed? || step.LocalBytes? || step.LocalEnd? || step.LocalWriteFailed?
  }

  lemma StrayLocalKeeps(w: World, step: Step, o: ByteOrder)
    requires Inv(w) && !w.agentFramed && Enabled(w, step) && IsLocal(step)
    ensures Inv(Next(w, step, o))
  {
    hide Inv, Scan, Parse, InlineData, Text;
    InvIsWired(w);
    StrayAgentKeeps(w, Next(w, step, o));
  }

  lemma LocalKeeps(w: World, step: Step, o: ByteOrder)
    requires Inv(w) && w.agentFramed && Enabled(w, step) && IsLocal(step)
    ensures Inv(Next(w, step, o))
  {
    hide Inv, Next;
    match step
    case LocalConnected(id) => LocalConnectedKeeps(w, id, o);
    case LocalConnectFailed(id) => LocalConnectFailedKeeps(w, id, o);
    case LocalBytes(id, data) => LocalBytesKeeps(w, id, data, o);
    case LocalEnd(id) => LocalEndKeeps(w, id, o);
    case LocalWriteFailed(id) => LocalWriteFailedKeeps(w, id, o);
  }

  lemma RefusedCreate(w: World, id: Uuid, admission: Admission, o: ByteOrder)
    requires Fresh(id, w.logs) && !admission.Admitted?
    ensures Next(w, Create(id, admission), o) == w
  {
  }

  lemma NextKeeps(w: World, step: Step, o: ByteOrder)
    requires Inv(w) && Enabled(w, step)
    ensures Inv(Next(w, step, o))
  {
    hide Inv, Next;
    if IsLocal(step) {
      if w.agentFramed { LocalKeeps(w, step, o); } else { StrayLocalKeeps(w, step, o); }
    } else {
      match step
      case Create(id, admission) =>
        if admission.Admitted? { CreateKeeps(w, id, o); } else { RefusedCreate(w, id, admission, o); }
      case ClientData(id, data) => ClientDataKeeps(w, id, data, o);
      case WindowUpdate(id, count) => WindowUpdateKeeps(w, id, count, o);
      case ServerClose(id, graceful) => CloseStepKeeps(w, id, graceful, o);
      case ClientWritten(id) => ClientWrittenKeeps(w, id, o);
      case LinkLost => LinkLostKeeps(w, o);
      case AgentRead(count) => AgentReadKeeps(w, count, o);
      case ServerRead => ServerReadKeeps(w, o);
      case ServerReadOther(bytes) => ServerReadOtherKeeps(w, bytes, o);
    }
  }

  lemma CloseStepKeeps(w: World, id: Uuid, graceful: bool, o: ByteOrder)
    requires Inv(w) && id in w.logs
    ensures Inv(Next(w, ServerClose(id, graceful), o))
  {
    hide Inv;
    ServerCloseKeeps(w, id, graceful);
  }

  lemma {:induction false} RunKeeps(steps: seq<Step>, o: ByteOrder)
    ensures Inv(Run(steps, o))
  {
    if steps == [] {
      InitialInv();
    } else {
      var front, last := steps[..|steps| - 1], steps[|steps| - 1];
      RunKeeps(front, o);
      if Enabled(Run(front, o), last) {
        NextKeeps(Run(front, o), last, o);
      }
    }
  }
}
