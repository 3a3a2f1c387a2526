/** What the invariant means for a run. */
module TunnelTheorems {
  import opened Bytes
  import opened Sequences
  import opened TcpProtocol
  import opened ConnectionIds
  import opened FrameScanner
  import opened Streams
  import opened TcpProxy
  import opened TcpForwarder
  import opened Tunnel
  import opened TunnelInvariant

  /** Everything handed to the local socket of a connection, open or closed. */
  function Issued(w: World, id: Uuid): seq<byte> {
    if id in w.agent.conns then w.agent.conns[id].issued
    else if id in w.agent.retired then w.agent.retired[id].issued else []
  }

  /** DATA payloads written by the server that the agent has not read yet. */
  function InFlight(w: World, id: Uuid): seq<byte>
    requires w.arrived <= |w.server.wire|
  {
    Stream(id, Frames(w.server.wire[w.arrived..]))
  }

  lemma StreamSplitsAtArrival(w: World, id: Uuid)
    requires Wired(w) && w.agentFramed
    ensures Stream(id, Frames(w.server.wire)) == Stream(id, Frames(w.server.wire[..w.arrived])) + InFlight(w, id)
  {
    ArrivedIsPrefix(w);
    StreamSplit(id, Frames(w.server.wire[..w.arrived]), Frames(w.server.wire[w.arrived..]));
  }

  /** End to end, towards the agent, as long as its reads end on frame boundaries and whatever the server
      reads. For a connection open at the agent, what the local socket was given, then the queue, then
      what is on the wire, is exactly what the server accepted while the link is up, and a prefix of it
      after the link is lost. */
  lemma EndToEnd(steps: seq<Step>, o: ByteOrder, id: Uuid)
    ensures var w := Run(steps, o);
            w.agentFramed && id in w.agent.conns ==>
              && id in w.logs && w.arrived <= |w.server.wire|
              && var path := w.agent.conns[id].issued + Concat(w.agent.conns[id].pending) + InFlight(w, id);
                 path <= w.logs[id].accepted && (w.server.linkUp ==> path == w.logs[id].accepted)
  {
    var w := Run(steps, o);
    RunKeeps(steps, o);
    if w.agentFramed && id in w.agent.conns {
      assert Good(w, id);
      StreamSplitsAtArrival(w, id);
    }
  }

  /** As long as the agent's reads end on frame boundaries, safety for every connection, closed ones
      included, also those whose local connect finishes after they were closed: the local socket is only
      ever given a prefix of what the server accepted, and nothing before the OPEN arrives. */
  lemma NeverWrongBytes(steps: seq<Step>, o: ByteOrder, id: Uuid)
    ensures var w := Run(steps, o);
            w.agentFramed ==>
              && (id in w.logs ==> Issued(w, id) <= w.logs[id].accepted)
              && (id !in w.logs ==> Issued(w, id) == [])
  {
    var w := Run(steps, o);
    RunKeeps(steps, o);
    if w.agentFramed && id in w.logs {
      assert Good(w, id);
      StreamSplitsAtArrival(w, id);
      IssuedArrived(w, id);
    }
  }

  lemma IssuedArrived(w: World, id: Uuid)
    requires Wired(w) && AgentOk(id, w.agent, Frames(w.server.wire[..w.arrived]))
    ensures Issued(w, id) <= Stream(id, Frames(w.server.wire[..w.arrived]))
  {
  }

  lemma AllInFlight(w: World, id: Uuid)
    requires Wired(w) && id in w.logs && Good(w, id) && w.agentFramed
    requires id !in w.agent.conns && id !in w.agent.retired
    ensures Stream(id, Frames(w.server.wire)) == InFlight(w, id)
  {
    var before, after := Frames(w.server.wire[..w.arrived]), Frames(w.server.wire[w.arrived..]);
    StreamSplitsAtArrival(w, id);
    ArrivedIsPrefix(w);
    OrderlyPrefix(id, before, after);
    NothingBeforeOpen(id, before);
    Whole(InFlight(w, id));
  }

  /** Before the agent knows a connection, all of its data is still on the wire behind its OPEN. */
  lemma NothingLostBeforeOpen(steps: seq<Step>, o: ByteOrder, id: Uuid)
    ensures var w := Run(steps, o);
            w.agentFramed && w.server.linkUp && id in w.logs && id !in w.agent.conns && id !in w.agent.retired ==>
              w.arrived <= |w.server.wire| && InFlight(w, id) == w.logs[id].accepted
  {
    var w := Run(steps, o);
    RunKeeps(steps, o);
    if w.agentFramed && id in w.logs && id !in w.agent.conns && id !in w.agent.retired {
      assert Good(w, id);
      AllInFlight(w, id);
    }
  }

  /** The ledger of every connection in the table. The client's half is exact: more is written to the
      client than came from the agent exactly if a payload arrived while a write was outstanding, and
      otherwise everything received is delivered or buffered, in order. */
  lemma WindowLedger(steps: seq<Step>, o: ByteOrder, id: Uuid)
    ensures var w := Run(steps, o);
            Text(id) in w.server.conns ==>
              && id in w.logs
              && var c, l := w.server.conns[Text(id)], w.logs[id];
                 && |c.sendBuffer| <= 65536 && |c.recvBuffer| <= 65536
                 && l.accepted == l.consumed + c.sendBuffer && c.bytesSent == |l.accepted| % TWO_64
                 && c.bytesReceived == |l.received| % TWO_64
                 && (l.overlapped <==> |c.delivered| + |Concat(c.writes)| > |l.received|)
                 && (!l.overlapped ==>
                       l.received == c.delivered + c.recvBuffer && Concat(c.writes) <= c.recvBuffer)
                 && (c.recvBuffer == [] || (c.writes != [] && c.writes[|c.writes| - 1] == c.recvBuffer))
  {
    hide Text, Parse;
    var w := Run(steps, o);
    RunKeeps(steps, o);
    if Text(id) in w.server.conns {
      TableIdsAreKnown(w, id);
      assert Good(w, id);
      if !w.logs[id].overlapped { WritesArePrefix(w.server.conns[Text(id)], w.logs[id]); }
    }
  }

  lemma WritesArePrefix(c: Conn, l: Log)
    requires ClientOk(c, l) && !l.overlapped
    ensures Concat(c.writes) <= c.recvBuffer
  {
    if c.writes != [] {
      var none: seq<seq<byte>> := [];
      assert c.writes[1..] == none;
      Whole(c.writes[0]);
    }
  }

  predicate NoUpdates(steps: seq<Step>, id: Uuid) {
    forall i :: 0 <= i < |steps| ==> !(steps[i].WindowUpdate? && steps[i].id == id)
  }

  lemma StepAccepts(w: World, step: Step, o: ByteOrder, id: Uuid)
    requires Inv(w) && Enabled(w, step) && !(step.WindowUpdate? && step.id == id)
    ensures var w' := Next(w, step, o);
            && (id in w.logs ==> id in w'.logs && w'.logs[id].consumed == w.logs[id].consumed)
            && (id in w'.logs && id !in w.logs ==> w'.logs[id] == NEW_LOG)
            && (id in w.logs && w'.logs[id].accepted != w.logs[id].accepted ==> Text(id) in w'.server.conns)
  {
    hide Frames, Framed, InlineData, Inv, Parse, Text, AfterAgentFrame, AfterClose, HandleFrames;
    if step.ClientData? {
      TextIsInjective(id, step.id);
      Whole(w.logs[step.id].accepted);
    }
  }

  /** As long as no window update happens, a connection takes no more than one window towards the
      agent, in its whole life. */
  lemma {:induction false} OneWindowWithoutUpdates(steps: seq<Step>, o: ByteOrder, id: Uuid)
    requires NoUpdates(steps, id)
    ensures var w := Run(steps, o);
            id in w.logs ==> w.logs[id].consumed == [] && |w.logs[id].accepted| <= 65536
  {
    hide Inv, Next, Enabled;
    if steps != [] {
      var front, step := steps[..|steps| - 1], steps[|steps| - 1];
      OneWindowWithoutUpdates(front, o, id);
      RunKeeps(front, o);
      if Enabled(Run(front, o), step) { StepAccepts(Run(front, o), step, o, id); }
      WindowLedger(steps, o, id);
    }
  }

  /** In every reachable state, `can_send` is true for exactly the connections that have room; one of
      them takes data if it is established. */
  lemma CanSendMeansRoom(steps: seq<Step>, o: ByteOrder, id: Uuid, length: nat)
    requires length > 0
    ensures var s := Run(steps, o).server;
            Takes(s, Text(id), length) > 0 <==> CanSend(s, Text(id)) && s.conns[Text(id)].state == ESTABLISHED
  {
    hide Run, Text;
    WindowLedger(steps, o, id);
  }

  lemma OrderlyAt(id: Uuid, fs: seq<FrameBytes>, i: nat)
    requires Orderly(id, fs) && i < |fs|
    ensures Follows(id, fs[..i], fs[i])
  {
    hide Orderly, Stream, Part, Numbered, Follows;
    assert fs == fs[..i + 1] + fs[i + 1..];
    OrderlyPrefix(id, fs[..i + 1], fs[i + 1..]);
    assert fs[..i + 1] == fs[..i] + [fs[i]];
    Append(id, fs[..i], fs[i]);
  }

  /** The DATA frames on the wire spell the accepted bytes, and each carries its byte offset. */
  lemma NumberedStream(steps: seq<Step>, o: ByteOrder, id: Uuid, i: nat)
    ensures var w := Run(steps, o);
            var fs := Frames(w.server.wire);
            id in w.logs ==>
              && (w.server.linkUp ==> Stream(id, fs) == w.logs[id].accepted)
              && (i < |fs| && IdOf(fs[i]) == id && fs[i][0] == TCP_DATA ==> Numbered(fs[i], |Stream(id, fs[..i])|))
  {
    var w := Run(steps, o);
    RunKeeps(steps, o);
    if id in w.logs {
      assert Good(w, id);
      if i < |Frames(w.server.wire)| { OrderlyAt(id, Frames(w.server.wire), i); }
    }
  }

  lemma BackSplits(id: Uuid, sent: seq<FrameBytes>, returned: nat)
    requires returned <= |sent|
    ensures Stream(id, sent[..returned]) + Stream(id, sent[returned..]) == Stream(id, sent)
  {
    assert sent == sent[..returned] + sent[returned..];
    StreamSplit(id, sent[..returned], sent[returned..]);
  }

  /** End to end, towards the client, for every connection at every moment: what the server has taken
      and what is on its way are the bytes read from the local socket, in order, exactly if the server
      refused none; and unless a payload met an outstanding write, the client's share is delivered or
      buffered. */
  lemma EndToEndBack(steps: seq<Step>, o: ByteOrder, id: Uuid)
    ensures var w := Run(steps, o);
            w.agentFramed && w.serverFramed && id in w.logs ==>
              && LongFrames(w.agent.sent) && w.returned <= |w.agent.sent|
              && var l, back := w.logs[id], Stream(id, w.agent.sent[w.returned..]);
                 && (!l.refused <==> l.received + back == l.localRead)
                 && (Text(id) in w.server.conns && !l.overlapped ==>
                       var c := w.server.conns[Text(id)];
                       !l.refused <==> c.delivered + c.recvBuffer + back == l.localRead)
  {
    hide Text;
    var w := Run(steps, o);
    RunKeeps(steps, o);
    if w.agentFramed && w.serverFramed && id in w.logs {
      assert Good(w, id);
      BackSplits(id, w.agent.sent, w.returned);
    }
  }

  /** The connection after at most n of its outstanding writes have completed. */
  function Completed(c: Conn, n: nat): Conn
    decreases n
  {
    if n == 0 || c.writes == [] then c else Completed(CompleteWrite(c), n - 1)
  }

  /** Completing outstanding writes delivers their blocks, whatever else is issued on the way. */
  lemma {:induction false} CompletedDelivers(c: Conn, n: nat)
    requires n <= |c.writes|
    ensures Completed(c, n).delivered == c.delivered + Concat(c.writes[..n])
    decreases n
  {
    if n == 0 {
      Whole(c.delivered);
    } else {
      var one := CompleteWrite(c);
      assert one.writes[..n - 1] == c.writes[1..][..n - 1] == c.writes[..n][1..];
      CompletedDelivers(one, n - 1);
      Associative(c.delivered, c.writes[0], Concat(c.writes[..n][1..]));
    }
  }

  /** What an outstanding write does when data arrives: the client gets what was buffered and
      the new data, once and in order, exactly if no earlier write was still outstanding; otherwise the
      bytes of all those writes come first, a second time. */
  lemma ArrivalDeliveredOnce(c: Conn, payload: seq<byte>)
    requires c.recvBuffer + payload != [] && forall i :: 0 <= i < |c.writes| ==> c.writes[i] != []
    ensures var arrived := IssueWrite(c.(recvBuffer := c.recvBuffer + payload));
            && Completed(arrived, |arrived.writes|).delivered
               == c.delivered + Concat(c.writes) + (c.recvBuffer + payload)
            && (Completed(arrived, |arrived.writes|).delivered == c.delivered + (c.recvBuffer + payload)
                <==> c.writes == [])
  {
    var arrived := IssueWrite(c.(recvBuffer := c.recvBuffer + payload));
    CompletedDelivers(arrived, |arrived.writes|);
    Whole(arrived.writes);
    ConcatAppend(c.writes, c.recvBuffer + payload);
    Associative(c.delivered, Concat(c.writes), c.recvBuffer + payload);
    Whole(c.delivered);
    if c.writes != [] { assert |Concat(c.writes)| >= |c.writes[0]| > 0; }
  }

  /** Two DATA frames are enough: when the second arrives before the first write is done, the new
      connection has both the first payload and the whole buffer outstanding. When the first is done, the
      second payload is written once more, so after three writes the client has both payloads twice. */
  lemma TwoFramesOverlap(s: Server, id: Uuid, m: u32, n: u32, p: seq<byte>, q: seq<byte>)
    requires Text(id) in s.conns && s.conns[Text(id)] == NEW_CONN.(state := ESTABLISHED)
    requires p != [] && q != [] && |p| + |q| <= WINDOW
    ensures var c := AfterAgentFrame(AfterAgentFrame(s, EncodeData(id, m, p)), EncodeData(id, n, q)).conns[Text(id)];
            && c.writes == [p, p + q] && Completed(c, 2).delivered == p + (p + q)
            && Completed(c, 3).delivered == p + (p + q) + q
            && Completed(c, 3).writes == [] && Completed(c, 3).recvBuffer == []
  {
    hide Text, EncodeData, AfterAgentFrame, Concat, Completed;
    FrameGivesWrite(s, id, m, p);
    Whole(p);
    var one := AfterAgentFrame(s, EncodeData(id, m, p));
    FrameGivesWrite(one, id, n, q);
    var c := AfterAgentFrame(one, EncodeData(id, n, q)).conns[Text(id)];
    assert c.writes == [p] + [p + q] == [p, p + q];
    CompletedDelivers(c, 2);
    Whole(c.writes);
    ConcatPair(p, p + q);
    Whole(p + (p + q));
    TwoWritesSettle(c, p, q);
  }

  lemma TwoWritesSettle(c: Conn, p: seq<byte>, q: seq<byte>)
    requires c.writes == [p, p + q] && c.recvBuffer == p + q && c.delivered == [] && p != [] && q != []
    ensures Completed(c, 3).delivered == p + (p + q) + q
    ensures Completed(c, 3).writes == [] && Completed(c, 3).recvBuffer == []
  {
    var one := CompleteWrite(c);
    SplitConcat(p, q);
    Whole(p);
    assert c.writes[1..] == [p + q];
    assert one.writes == [p + q, q] && one.recvBuffer == q && one.delivered == p;
    var two := CompleteWrite(one);
    assert one.writes[1..] == [q];
    assert two.writes == [q] && two.recvBuffer == [] && two.delivered == p + (p + q);
    var three := CompleteWrite(two);
    assert three.writes == [] && three.recvBuffer == [];
    assert Completed(two, 1) == Completed(three, 0) == three;
    assert Completed(c, 3) == Completed(one, 2) == Completed(two, 1);
  }

  lemma ConcatPair(a: seq<byte>, b: seq<byte>)
    ensures Concat([a, b]) == a + b
  {
    var none: seq<seq<byte>> := [];
    assert [a, b][1..] == [b] && [b][1..] == none;
    assert Concat([b]) == b + Concat(none);
    Whole(b);
  }

  /** A DATA frame that fits adds to the receive buffer and writes all of it. */
  lemma FrameGivesWrite(s: Server, id: Uuid, n: u32, data: seq<byte>)
    requires Text(id) in s.conns && data != [] && |s.conns[Text(id)].recvBuffer| + |data| <= WINDOW
    ensures var c, s' := s.conns[Text(id)], AfterAgentFrame(s, EncodeData(id, n, data));
            && Text(id) in s'.conns
            && s'.conns[Text(id)].recvBuffer == c.recvBuffer + data
            && s'.conns[Text(id)].writes == c.writes + [c.recvBuffer + data]
            && s'.conns[Text(id)].delivered == c.delivered
  {
    hide Text, EncodeData, InlineData;
    DataHeader(id, n, data);
    InlineDataInvertsEncode(id, n, data);
  }

  /** What the server does with a read of several frames: only the first is handled, and the rest is
      lost. */
  lemma ServerHandlesFirstFrameOnly(s: Server, f: seq<byte>, rest: seq<byte>)
    requires Exact(f)
    ensures AfterAgentFrame(s, f + rest) == AfterAgentFrame(s, f)
  {
    hide Text, FromBe32, AfterReceive, AfterWrite, AfterClose;
    CompleteStays(f, rest);
    assert (f + rest)[1..17] == f[1..17] && (f + rest)[0] == f[0];
    if f[0] == TCP_DATA {
      assert (f + rest)[21..25] == f[21..25];
      var length: int := FromBe32(f[21..25]);
      assert (f + rest)[25..25 + length] == f[25..25 + length];
    }
  }

  /** Every table key is the printed id of a connection created under that id, an established
      connection's OPEN carries the id, and every DATA frame for it follows that OPEN. */
  lemma ConnectionIdentity(steps: seq<Step>, o: ByteOrder, key: string)
    ensures var w := Run(steps, o);
            key in w.server.conns ==>
              && KeyKnown(key, w.logs)
              && w.server.conns[key].state != CLOSED
              && (w.server.conns[key].state == ESTABLISHED ==> Opened(Parse(key).value, Frames(w.server.wire)))
              && Orderly(Parse(key).value, Frames(w.server.wire))
  {
    var w := Run(steps, o);
    RunKeeps(steps, o);
    if key in w.server.conns {
      assert KeyKnown(key, w.logs);
      assert Good(w, Parse(key).value);
    }
  }

  // ----- lifecycle -----

  function Rank(s: ConnectionState): nat {
    match s
    case CONNECTING => 0
    case ESTABLISHED => 1
    case CLOSING => 2
    case CLOSED => 3
  }

  /** An entry of the later table was there before with an earlier or equal state, or belongs to an
      id not created before. */
  predicate Advanced(key: string, before: World, after: World) {
    key in after.server.conns ==>
      if key in before.server.conns
      then Rank(before.server.conns[key].state) <= Rank(after.server.conns[key].state)
      else Parse(key).Some? && Parse(key).value !in before.logs
  }

  lemma CreateAdvances(w: World, id: Uuid, admission: Admission, o: ByteOrder, key: string)
    requires Inv(w) && Fresh(id, w.logs)
    ensures var w' := Next(w, Create(id, admission), o); Advanced(key, w, w') && w.logs.Keys <= w'.logs.Keys
  {
    hide Parse, Stream, Orderly, Frames, Scan, InlineData;
    ParseInvertsText(id);
    if Text(id) in w.server.conns { TableIdsAreKnown(w, id); }
  }

  /** A server step that adds no entry and moves no state back. */
  predicate Forward(key: string, s: Server, s': Server) {
    key in s'.conns ==> key in s.conns && Rank(s.conns[key].state) <= Rank(s'.conns[key].state)
  }

  lemma CloseMovesForward(s: Server, id: string, graceful: bool, key: string)
    requires key in s.conns ==> s.conns[key].state != CLOSED
    ensures Forward(key, s, AfterClose(s, id, graceful))
  {
  }

  lemma FrameMovesForward(s: Server, bytes: seq<byte>, key: string)
    requires key in s.conns ==> s.conns[key].state != CLOSED
    ensures Forward(key, s, AfterAgentFrame(s, bytes))
  {
    hide Text, InlineData, AfterClose;
    if |bytes| >= 17 {
      CloseMovesForward(s, Text(bytes[1..17]), true, key);
      CloseMovesForward(s, Text(bytes[1..17]), false, key);
    }
  }

  lemma EntryIsNotClosed(w: World, key: string)
    requires Inv(w) && key in w.server.conns
    ensures w.server.conns[key].state != CLOSED
  {
    hide Parse, Text, Stream, Orderly, Frames, Scan;
    assert KeyKnown(key, w.logs);
    assert Good(w, Parse(key).value);
  }

  lemma StepMovesForward(w: World, step: Step, o: ByteOrder, key: string)
    requires Enabled(w, step) && !step.Create? && (key in w.server.conns ==> w.server.conns[key].state != CLOSED)
    ensures Forward(key, w.server, Next(w, step, o).server)
  {
    hide Text, Parse, InlineData, AfterAgentFrame, AfterClose, HandleFrames, Frames, Framed;
    match step
    case ServerClose(id, graceful) => CloseMovesForward(w.server, Text(id), graceful, key);
    case ServerRead => FrameMovesForward(w.server, w.agent.sent[w.returned], key);
    case ServerReadOther(bytes) => FrameMovesForward(w.server, bytes, key);
    case _ =>
  }

  lemma LogsStay(w: World, step: Step, o: ByteOrder)
    requires Enabled(w, step)
    ensures w.logs.Keys <= Next(w, step, o).logs.Keys
  {
    hide Text, Parse, InlineData, AfterAgentFrame, AfterClose, HandleFrames, Frames, Framed, AfterSend;
  }

  lemma StepAdvances(w: World, step: Step, o: ByteOrder, key: string)
    requires Inv(w) && Enabled(w, step)
    ensures Advanced(key, w, Next(w, step, o)) && w.logs.Keys <= Next(w, step, o).logs.Keys
  {
    hide Next, Inv, Parse, Enabled;
    if step.Create? {
      assert Fresh(step.id, w.logs) by { IsFresh(w, step); }
      CreateAdvances(w, step.id, step.admission, o, key);
    } else {
      if key in w.server.conns { EntryIsNotClosed(w, key); }
      StepMovesForward(w, step, o, key);
      LogsStay(w, step, o);
    }
  }

  lemma IsFresh(w: World, step: Step)
    requires Enabled(w, step) && step.Create?
    ensures Fresh(step.id, w.logs)
  {
  }

  lemma TableKeyKnown(steps: seq<Step>, o: ByteOrder, key: string)
    ensures key in Run(steps, o).server.conns ==> KeyKnown(key, Run(steps, o).logs)
  {
    RunKeeps(steps, o);
  }

  lemma AdvancesFurther(key: string, a: World, b: World, c: World)
    requires Advanced(key, a, b) && Advanced(key, b, c) && a.logs.Keys <= b.logs.Keys
    requires key in a.server.conns ==> KeyKnown(key, a.logs)
    ensures Advanced(key, a, c)
  {
    hide Parse;
  }

  /** States only move forward over any continuation of a run, and a connection that has left the
      table never comes back. */
  lemma {:induction false} StatesMoveForward(steps: seq<Step>, more: seq<Step>, o: ByteOrder, key: string)
    ensures Advanced(key, Run(steps, o), Run(steps + more, o))
    ensures Run(steps, o).logs.Keys <= Run(steps + more, o).logs.Keys
  {
    hide Parse, Inv, Next, Enabled;
    if more == [] {
      Whole(steps);
    } else {
      var front, last := more[..|more| - 1], more[|more| - 1];
      assert (steps + more)[..|steps + more| - 1] == steps + front;
      StatesMoveForward(steps, front, o, key);
      var middle := Run(steps + front, o);
      RunKeeps(steps + front, o);
      if Enabled(middle, last) {
        StepAdvances(middle, last, o, key);
        TableKeyKnown(steps, o, key);
        AdvancesFurther(key, Run(steps, o), middle, Next(middle, last, o));
      }
    }
  }

  // ----- who leaves the table -----

  predicate Asks(bytes: seq<byte>, id: Uuid, graceful: bool) {
    && |bytes| >= 17 && bytes[1..17] == id
    && if graceful then bytes[0] == TCP_CLOSE else bytes[0] == TCP_ERROR && |bytes| >= 21
  }

  /** A step that closes a connection at the server: the server itself, or a CLOSE (gracefully) or ERROR
      frame that it reads. */
  predicate Closes(w: World, step: Step, id: Uuid, graceful: bool) {
    match step
    case ServerClose(u, g) => u == id && g == graceful
    case ServerRead => w.returned < |w.agent.sent| && Asks(w.agent.sent[w.returned], id, graceful)
    case ServerReadOther(bytes) => Asks(bytes, id, graceful)
    case _ => false
  }

  /** A connection leaves the table exactly when it is closed and, for a graceful close, nothing is left
      in its send buffer. */
  lemma StepRemoves(w: World, step: Step, o: ByteOrder, id: Uuid)
    requires Inv(w) && Enabled(w, step) && Text(id) in w.server.conns
    ensures var c, after := w.server.conns[Text(id)], Next(w, step, o).server.conns;
            && (Text(id) !in after <==> Closes(w, step, id, false) || (Closes(w, step, id, true) && c.sendBuffer == []))
            && (Text(id) in after && Closes(w, step, id, true) ==> after[Text(id)].state == CLOSING)
  {
    hide Text, Parse, Stream, Orderly, Frames, Scan, InlineData, Inv, AfterAgentFrame, AfterClose;
    match step
    case ServerClose(u, graceful) => CloseRemoves(w.server, u, graceful, id);
    case ServerRead => FrameRemoves(w.server, w.agent.sent[w.returned], id);
    case ServerReadOther(bytes) => FrameRemoves(w.server, bytes, id);
    case _ =>
  }

  lemma CloseRemoves(s: Server, u: Uuid, graceful: bool, id: Uuid)
    requires Text(id) in s.conns
    ensures var after := AfterClose(s, Text(u), graceful).conns;
            && (Text(id) !in after <==> u == id && (graceful ==> s.conns[Text(id)].sendBuffer == []))
            && (Text(id) in after && u == id ==> after[Text(id)].state == CLOSING)
  {
    hide Text;
    TextIsInjective(u, id);
  }

  lemma FrameRemoves(s: Server, bytes: seq<byte>, id: Uuid)
    requires Text(id) in s.conns
    ensures var after := AfterAgentFrame(s, bytes).conns;
            && (Text(id) !in after
                <==> Asks(bytes, id, false) || (Asks(bytes, id, true) && s.conns[Text(id)].sendBuffer == []))
            && (Text(id) in after && Asks(bytes, id, true) ==> after[Text(id)].state == CLOSING)
  {
    hide Text, InlineData, AfterClose;
    if |bytes| >= 17 {
      CloseRemoves(s, bytes[1..17], true, id);
      CloseRemoves(s, bytes[1..17], false, id);
    }
  }

  lemma RunStep(steps: seq<Step>, step: Step, o: ByteOrder)
    ensures var w := Run(steps, o); Run(steps + [step], o) == if Enabled(w, step) then Next(w, step, o) else w
  {
    hide Enabled, Next;
    assert (steps + [step])[..|steps|] == steps;
  }

  /** In every run, a step removes a connection exactly if it aborts it, or closes it gracefully when
      every byte accepted from its client has been released; otherwise a graceful close leaves it CLOSING. */
  lemma LeavesTableExactlyWhen(steps: seq<Step>, step: Step, o: ByteOrder, id: Uuid)
    ensures var w, after := Run(steps, o), Run(steps + [step], o).server.conns;
            Text(id) in w.server.conns && Enabled(w, step) ==>
              && id in w.logs
              && var released := w.logs[id].consumed == w.logs[id].accepted;
                 && (Text(id) !in after
                     <==> Closes(w, step, id, false) || (Closes(w, step, id, true) && released))
                 && (Text(id) in after && Closes(w, step, id, true) ==> after[Text(id)].state == CLOSING)
  {
    hide Inv, Next, Enabled, Text, Run;
    RunKeeps(steps, o);
    RunStep(steps, step, o);
    WindowLedger(steps, o, id);
    var w := Run(steps, o);
    if Text(id) in w.server.conns && Enabled(w, step) {
      StepRemoves(w, step, o, id);
      Whole(w.logs[id].consumed);
      assert |w.logs[id].accepted| == |w.logs[id].consumed| + |w.server.conns[Text(id)].sendBuffer|;
    }
  }

  lemma AcceptedStays(w: World, step: Step, o: ByteOrder, id: Uuid)
    requires Inv(w) && Enabled(w, step) && id in w.logs
    ensures id in Next(w, step, o).logs && w.logs[id].accepted <= Next(w, step, o).logs[id].accepted
  {
    hide Stream, Orderly, Frames, Scan, InlineData, Inv, Parse, Text, AfterAgentFrame;
  }

  predicate NoAborts(steps: seq<Step>, more: seq<Step>, o: ByteOrder, id: Uuid) {
    forall i :: 0 <= i < |more| ==> !Closes(Run(steps + more[..i], o), more[i], id, false)
  }

  lemma NoneInFront(steps: seq<Step>, more: seq<Step>, o: ByteOrder, id: Uuid)
    requires more != [] && NoUpdates(steps + more, id) && NoAborts(steps, more, o, id)
    ensures var front := more[..|more| - 1];
            && NoUpdates(steps + front, id) && NoAborts(steps, front, o, id)
            && !Closes(Run(steps + front, o), more[|more| - 1], id, false)
  {
    hide Run, Closes;
    var front := more[..|more| - 1];
    assert steps + more == steps + front + [more[|more| - 1]];
    forall i | 0 <= i < |steps + front| ensures (steps + front)[i] == (steps + more)[i] {
    }
    forall i | 0 <= i < |front| ensures !Closes(Run(steps + front[..i], o), front[i], id, false) {
      assert front[..i] == more[..i];
    }
  }

  /** Without window updates, a connection that has taken any data from its client stays in the table
      for good, unless it is aborted: a graceful close of either side leaves it CLOSING for ever. */
  lemma {:induction false} DataKeepsEntry(steps: seq<Step>, more: seq<Step>, o: ByteOrder, id: Uuid)
    requires NoUpdates(steps + more, id) && NoAborts(steps, more, o, id)
    ensures var w, w' := Run(steps, o), Run(steps + more, o);
            Text(id) in w.server.conns && id in w.logs && w.logs[id].accepted != [] ==>
              && Text(id) in w'.server.conns && id in w'.logs && w'.logs[id].accepted != []
              && (w.server.conns[Text(id)].state == CLOSING ==> w'.server.conns[Text(id)].state == CLOSING)
    decreases |more|
  {
    hide Inv, Next, Enabled, Text, Run, Closes;
    if more == [] {
      Whole(steps);
    } else {
      var front, last := more[..|more| - 1], more[|more| - 1];
      assert steps + more == steps + front + [last];
      NoneInFront(steps, more, o, id);
      DataKeepsEntry(steps, front, o, id);
      LeavesTableExactlyWhen(steps + front, last, o, id);
      OneWindowWithoutUpdates(steps + front, o, id);
      RunKeeps(steps + front, o);
      RunStep(steps + front, last, o);
      var w, middle := Run(steps, o), Run(steps + front, o);
      if Text(id) in w.server.conns && id in w.logs && w.logs[id].accepted != [] {
        if Enabled(middle, last) {
          AcceptedStays(middle, last, o, id);
          RunKeeps(steps + more, o);
          StepAdvances(middle, last, o, Text(id));
          EntryIsNotClosed(Run(steps + more, o), Text(id));
        }
      }
    }
  }
}
