/** What a connection does for its client: when it serves, how much it takes, and what the client has
    been given once its writes have finished. */
module TunnelService {
  import opened Bytes
  import opened Sequences
  import opened TcpProtocol
  import opened ConnectionIds
  import opened FrameScanner
  import opened Streams
  import opened TcpForwarder
  import opened TcpProxy
  import opened Tunnel
  import opened TunnelInvariant
  import opened TunnelTheorems

  // ----- from the client -----

  /** A new connection has nothing in any buffer, and serves at once exactly if the link is up. */
  lemma CreatedServes(steps: seq<Step>, o: ByteOrder, id: Uuid)
    requires Enabled(Run(steps, o), Create(id, Admitted))
    ensures var w, w' := Run(steps, o), Run(steps + [Create(id, Admitted)], o);
            && Text(id) in w'.server.conns && id in w'.logs && w'.logs[id].accepted == []
            && var c := w'.server.conns[Text(id)];
               && c.state == (if w.server.linkUp then ESTABLISHED else CONNECTING)
               && c.sendBuffer == [] && c.recvBuffer == [] && c.writes == [] && c.delivered == []
  {
    hide Text, Run;
    RunStep(steps, Create(id, Admitted), o);
  }

  /** In every run, an established connection takes all that fits of its client's data, up to 65536
      bytes not yet released; any other takes nothing. */
  lemma DataIsTaken(steps: seq<Step>, o: ByteOrder, id: Uuid, data: seq<byte>)
    requires id in Run(steps, o).logs
    ensures var w, w' := Run(steps, o), Run(steps + [ClientData(id, data)], o);
            id in w'.logs &&
            var serves := Text(id) in w.server.conns && w.server.conns[Text(id)].state == ESTABLISHED;
            var room := if serves then 65536 - |w.server.conns[Text(id)].sendBuffer| else 0;
            && room >= 0
            && w'.logs[id].accepted == w.logs[id].accepted + data[..if |data| <= room then |data| else room]
  {
    hide Text, Parse, Run;
    RunKeeps(steps, o);
    RunStep(steps, ClientData(id, data), o);
    WindowLedger(steps, o, id);
    ParseInvertsText(id);
  }

  /** The first data of a new connection: up to 65536 bytes if the link is up, otherwise none. */
  lemma FirstDataIsTaken(steps: seq<Step>, o: ByteOrder, id: Uuid, data: seq<byte>)
    requires Enabled(Run(steps, o), Create(id, Admitted))
    ensures var w, w' := Run(steps, o), Run(steps + [Create(id, Admitted)] + [ClientData(id, data)], o);
            id in w'.logs &&
            w'.logs[id].accepted
            == data[..if !w.server.linkUp then 0 else if |data| <= 65536 then |data| else 65536]
  {
    hide Text, Run;
    CreatedServes(steps, o, id);
    DataIsTaken(steps + [Create(id, Admitted)], o, id, data);
    var taken := Run(steps + [Create(id, Admitted)] + [ClientData(id, data)], o).logs[id].accepted;
    Whole(taken);
  }

  /** In every run, the one way for the state of a connection in the table to change is a graceful close
      that leaves it there. */
  lemma StateChangesByClosing(steps: seq<Step>, step: Step, o: ByteOrder, id: Uuid)
    ensures var w, after := Run(steps, o), Run(steps + [step], o).server.conns;
            Text(id) in w.server.conns && Text(id) in after && Enabled(w, step) ==>
              after[Text(id)].state
              == if Closes(w, step, id, true) then CLOSING else w.server.conns[Text(id)].state
  {
    hide Text, Run, Inv, Enabled, Next;
    RunKeeps(steps, o);
    RunStep(steps, step, o);
    var w := Run(steps, o);
    if Text(id) in w.server.conns && Enabled(w, step) {
      StepRemoves(w, step, o, id);
      if !Closes(w, step, id, true) { StepKeepsState(w, step, o, id); }
    }
  }

  lemma StepKeepsState(w: World, step: Step, o: ByteOrder, id: Uuid)
    requires Inv(w) && Enabled(w, step) && Text(id) in w.server.conns && !Closes(w, step, id, true)
    ensures var after := Next(w, step, o).server.conns;
            Text(id) in after ==> after[Text(id)].state == w.server.conns[Text(id)].state
  {
    hide Text, Parse, InlineData, Inv, AfterAgentFrame;
    match step
    case Create(u, _) =>
      TextIsInjective(u, id);
      TableIdsAreKnown(w, id) by { InvIsWired(w); }
    case ServerClose(u, _) => TextIsInjective(u, id);
    case ServerRead => FrameKeepsState(w.server, w.agent.sent[w.returned], id);
    case ServerReadOther(bytes) => FrameKeepsState(w.server, bytes, id);
    case _ =>
  }

  lemma FrameKeepsState(s: Server, bytes: seq<byte>, id: Uuid)
    requires Text(id) in s.conns && !Asks(bytes, id, true)
    ensures var after := AfterAgentFrame(s, bytes).conns;
            Text(id) in after ==> after[Text(id)].state == s.conns[Text(id)].state
  {
    hide Text, InlineData;
    if |bytes| >= 17 { TextIsInjective(bytes[1..17], id); }
  }

  /** What the two flags of a run record. */
  lemma FramedExactly(steps: seq<Step>, step: Step, o: ByteOrder)
    ensures var w, w' := Run(steps, o), Run(steps + [step], o);
            Enabled(w, step) ==>
              && (w'.serverFramed <==> w.serverFramed && !step.ServerReadOther?)
              && (w'.agentFramed <==> w.agentFramed && (step.AgentRead? ==>
                                                          Framed(w.server.wire[w.arrived..w.arrived + step.count])))
  {
    hide Run, TakeRead, Framed, HandleFrames;
    var w := Run(steps, o);
    RunStep(steps, step, o);
    if step.ServerRead? && Enabled(w, step) { TakeReadFrame(w, w.agent.sent[w.returned]); }
    if step.ServerReadOther? { TakeReadFrame(w, step.bytes); }
  }

  // ----- to the agent -----

  /** A textual id of any length is cut to sixteen characters, or filled up with zeros. */
  lemma CloseFrameIsLaidOut(key: string, i: nat)
    requires i < 16
    ensures var b := CloseFrame(key);
            && |b| == 19 && b[0] == 0x12 && b[17] == 0 && b[18] == 0
            && b[1 + i] == if i < |key| then key[i] as int % 0x100 else 0
  {
  }

  /** What the server writes in a step: an OPEN for a new connection, the accepted part of a client's data
      with its offset, and a CLOSE whenever it closes a connection of its table. */
  ghost predicate Says(w: World, step: Step, o: ByteOrder, f: seq<byte>) {
    match step
    case Create(id, admission) => f == if admission.Admitted? then EncodeOpen(id, 0, o) else []
    case ClientData(id, data) =>
      id in w.logs &&
      var serves := Text(id) in w.server.conns && w.server.conns[Text(id)].state == ESTABLISHED;
      var room := if serves then 65536 - |w.server.conns[Text(id)].sendBuffer| else 0;
      var n := if |data| <= room then |data| else room;
      n >= 0 && f == if n == 0 then [] else EncodeData(id, |w.logs[id].accepted| % 0x1_0000_0000, data[..n])
    case ServerClose(id, _) => f == if Text(id) in w.server.conns then CloseFrame(Text(id)) else []
    case ServerRead => w.returned < |w.agent.sent| && Closing(w, w.agent.sent[w.returned], f)
    case ServerReadOther(bytes) => Closing(w, bytes, f)
    case _ => f == []
  }

  predicate Closing(w: World, bytes: seq<byte>, f: seq<byte>) {
    if |bytes| >= 17 && (Asks(bytes, bytes[1..17], true) || Asks(bytes, bytes[1..17], false))
       && Text(bytes[1..17]) in w.server.conns
    then f == CloseFrame(Text(bytes[1..17])) else f == []
  }

  lemma FrameSays(w: World, bytes: seq<byte>)
    ensures var s' := AfterAgentFrame(w.server, bytes);
            exists f :: Closing(w, bytes, f) && s'.wire == w.server.wire + (if w.server.linkUp then f else [])
  {
    hide Text, InlineData, CloseFrame;
    Whole(w.server.wire);
    var f := if |bytes| >= 17 && (Asks(bytes, bytes[1..17], true) || Asks(bytes, bytes[1..17], false))
                && Text(bytes[1..17]) in w.server.conns
             then CloseFrame(Text(bytes[1..17])) else [];
    assert Closing(w, bytes, f);
  }

  lemma DataSays(w: World, id: Uuid, data: seq<byte>, o: ByteOrder)
    requires Inv(w) && id in w.logs
    ensures exists f :: Says(w, ClientData(id, data), o, f)
                        && Next(w, ClientData(id, data), o).server.wire
                           == w.server.wire + (if w.server.linkUp then f else [])
  {
    hide Text, Parse, EncodeData, Stream, Orderly, Frames, Scan;
    Whole(w.server.wire);
    var n := Takes(w.server, Text(id), |data|);
    if Text(id) in w.server.conns { EntryIsOk(w, id); }
    if n > 0 {
      SendSpelledOut(w.server, id, w.logs[id], Opened(id, Frames(w.server.wire)), data, n);
      assert Says(w, ClientData(id, data), o, EncodeData(id, |w.logs[id].accepted| % 0x1_0000_0000, data[..n]));
    } else {
      assert Says(w, ClientData(id, data), o, []);
    }
  }

  lemma OtherSays(w: World, step: Step, o: ByteOrder)
    requires Enabled(w, step) && !step.ClientData?
    ensures exists f :: Says(w, step, o, f)
                        && Next(w, step, o).server.wire == w.server.wire + (if w.server.linkUp then f else [])
  {
    hide Text, Parse, InlineData, AfterAgentFrame, HandleFrames, Frames, Framed, EncodeOpen, CloseFrame;
    Whole(w.server.wire);
    match step
    case Create(id, admission) =>
      assert Says(w, step, o, if admission.Admitted? then EncodeOpen(id, 0, o) else []);
    case ServerClose(id, _) =>
      assert Says(w, step, o, if Text(id) in w.server.conns then CloseFrame(Text(id)) else []);
    case ServerRead => ReadSays(w, step, w.agent.sent[w.returned], o);
    case ServerReadOther(bytes) => ReadSays(w, step, bytes, o);
    case ClientData(_, _) =>
    case _ =>
      assert Says(w, step, o, []);
  }

  lemma ReadSays(w: World, step: Step, bytes: seq<byte>, o: ByteOrder)
    requires step == ServerReadOther(bytes)
             || (step.ServerRead? && w.returned < |w.agent.sent| && bytes == w.agent.sent[w.returned])
    ensures exists f :: Says(w, step, o, f)
                        && TakeRead(w, bytes).server.wire == w.server.wire + (if w.server.linkUp then f else [])
  {
    hide Text, InlineData, AfterAgentFrame, Closing;
    FrameSays(w, bytes);
    var f :| Closing(w, bytes, f)
             && AfterAgentFrame(w.server, bytes).wire == w.server.wire + (if w.server.linkUp then f else []);
    assert Says(w, step, o, f);
  }

  /** In every run, this is what a step adds to the wire while the link is up; afterwards it adds nothing. */
  lemma ServerSpeaks(steps: seq<Step>, step: Step, o: ByteOrder)
    requires Enabled(Run(steps, o), step)
    ensures var w, w' := Run(steps, o), Run(steps + [step], o);
            exists f :: Says(w, step, o, f) && w'.server.wire == w.server.wire + (if w.server.linkUp then f else [])
  {
    hide Run, Inv, Next, Enabled, Says;
    RunKeeps(steps, o);
    RunStep(steps, step, o);
    var w := Run(steps, o);
    if step.ClientData? {
      assert step.id in w.logs by { DataIsForLogged(w, step); }
      DataSays(w, step.id, step.data, o);
    } else {
      OtherSays(w, step, o);
    }
  }

  lemma DataIsForLogged(w: World, step: Step)
    requires step.ClientData? && Enabled(w, step)
    ensures step.id in w.logs
  {
  }

  lemma LostLinkStep(w: World, step: Step, o: ByteOrder)
    requires Enabled(w, step) && !w.server.linkUp
    ensures !Next(w, step, o).server.linkUp
  {
    hide Text, Parse, InlineData, HandleFrames, Frames, Framed, EncodeData, CloseFrame, AfterAgentFrame;
    if step.ServerRead? { FrameKeepsLink(w.server, w.agent.sent[w.returned]); }
    if step.ServerReadOther? { FrameKeepsLink(w.server, step.bytes); }
  }

  lemma FrameKeepsLink(s: Server, bytes: seq<byte>)
    ensures AfterAgentFrame(s, bytes).linkUp == s.linkUp
  {
    hide Text, InlineData, CloseFrame;
  }

  /** Once the link is lost, nothing is written to it over any continuation of the run. */
  lemma {:induction false} LinkStaysLost(steps: seq<Step>, more: seq<Step>, o: ByteOrder)
    ensures var w := Run(steps + [LinkLost] + more, o);
            !w.server.linkUp && w.server.wire == Run(steps, o).server.wire
    decreases |more|
  {
    hide Next, Enabled, Run;
    var lost := steps + [LinkLost];
    if more == [] {
      Whole(lost);
      LosesLink(steps, o);
    } else {
      var front, last := more[..|more| - 1], more[|more| - 1];
      assert lost + more == lost + front + [last];
      LinkStaysLost(steps, front, o);
      RunStep(lost + front, last, o);
      if Enabled(Run(lost + front, o), last) {
        LostLinkStep(Run(lost + front, o), last, o);
        ServerSpeaks(lost + front, last, o);
        Whole(Run(lost + front, o).server.wire);
      }
    }
  }

  lemma LosesLink(steps: seq<Step>, o: ByteOrder)
    ensures var w := Run(steps + [LinkLost], o); !w.server.linkUp && w.server.wire == Run(steps, o).server.wire
  {
    hide Run;
    RunStep(steps, LinkLost, o);
  }

  // ----- to the client -----

  lemma WriteCompletes(steps: seq<Step>, o: ByteOrder, id: Uuid)
    requires Text(id) in Run(steps, o).server.conns && Run(steps, o).server.conns[Text(id)].writes != []
    ensures var w, w' := Run(steps, o), Run(steps + [ClientWritten(id)], o);
            && Text(id) in w'.server.conns && w'.logs == w.logs
            && var c, c' := w.server.conns[Text(id)], w'.server.conns[Text(id)];
               && c.writes[0] != []
               && |c'.recvBuffer| == (if |c.writes[0]| <= |c.recvBuffer| then |c.recvBuffer| - |c.writes[0]| else 0)
               && |c'.writes| == |c.writes| - 1 + (if c'.recvBuffer == [] then 0 else 1)
  {
    hide Text, Run;
    RunKeeps(steps, o);
    RunStep(steps, ClientWritten(id), o);
    WindowLedger(steps, o, id);
    EntryIsOk(Run(steps, o), id);
  }

  /** Once enough writes have finished, those issued on the way included, nothing is left to write, and
      the client has been given exactly the bytes accepted from the agent, in order, if and only if no
      payload ever met an outstanding write; otherwise it has been given more. */
  lemma {:induction false} WritesSettle(steps: seq<Step>, o: ByteOrder, id: Uuid) returns (more: seq<Step>)
    requires Text(id) in Run(steps, o).server.conns
    ensures forall i :: 0 <= i < |more| ==> more[i] == ClientWritten(id)
    ensures var w, w' := Run(steps, o), Run(steps + more, o);
            && Text(id) in w'.server.conns && w'.logs == w.logs && id in w.logs
            && var c, l := w'.server.conns[Text(id)], w.logs[id];
               && c.writes == [] && c.recvBuffer == []
               && (c.delivered == l.received <==> !l.overlapped)
               && (l.overlapped ==> |c.delivered| > |l.received|)
    decreases |Run(steps, o).server.conns[Text(id)].recvBuffer|, |Run(steps, o).server.conns[Text(id)].writes|
  {
    hide Text, Run;
    WindowLedger(steps, o, id);
    if Run(steps, o).server.conns[Text(id)].writes == [] {
      more := [];
      Whole(steps);
      Whole(Run(steps, o).server.conns[Text(id)].delivered);
    } else {
      WriteCompletes(steps, o, id);
      var rest := WritesSettle(steps + [ClientWritten(id)], o, id);
      more := [ClientWritten(id)] + rest;
      Associative(steps, [ClientWritten(id)], rest);
    }
  }
}
