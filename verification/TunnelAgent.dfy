/** The agent's side of a run: which connections it has, when they are connected, and what it sends. */
module TunnelAgent {
  import opened Bytes
  import opened Sequences
  import opened TcpProtocol
  import opened FrameScanner
  import opened Streams
  import opened TcpForwarder
  import opened Tunnel
  import opened TunnelInvariant
  import opened TunnelTheorems

  // ----- opening and closing -----

  /** What the last frame to open or close a connection leaves: an entry or none. */
  function LastWord(id: Uuid, fs: seq<FrameBytes>, before: bool): bool {
    if fs == [] then before
    else
      var f := fs[|fs| - 1];
      if IdOf(f) != id then LastWord(id, fs[..|fs| - 1], before)
      else if f[0] == 0x10 then true
      else if f[0] == 0x12 || (f[0] == 0x13 && |f| >= 21) then false
      else LastWord(id, fs[..|fs| - 1], before)
  }

  lemma {:induction false} FramesDecide(id: Uuid, a: Agent, fs: seq<FrameBytes>)
    ensures id in HandleFrames(a, fs).conns <==> LastWord(id, fs, id in a.conns)
    decreases |fs|
  {
    if fs != [] {
      var front, last := fs[..|fs| - 1], fs[|fs| - 1];
      assert fs == front + [last];
      FramesDecide(id, a, front);
      HandleFramesAppend(a, front, last);
      hide InlineData, Given;
    }
  }

  /** The bytes a read brings, as frames. */
  function ReadFrames(w: World, count: nat): seq<FrameBytes>
    requires w.arrived + count <= |w.server.wire|
  {
    Frames(w.server.wire[w.arrived..w.arrived + count])
  }

  /** The last frame of the step that opens or closes the connection opens it, or, without such a frame,
      the agent had it and its own socket did not end or fail. */
  predicate Has(w: World, step: Step, id: Uuid)
    requires Enabled(w, step)
  {
    match step
    case AgentRead(count) => LastWord(id, ReadFrames(w, count), id in w.agent.conns)
    case LocalEnd(u) => id in w.agent.conns && u != id
    case LocalWriteFailed(u) => id in w.agent.conns && u != id
    case _ => id in w.agent.conns
  }

  /** In every run, however its reads are cut, this is when the agent has a connection after a step. */
  lemma AgentHasExactly(steps: seq<Step>, step: Step, o: ByteOrder, id: Uuid)
    ensures var w, after := Run(steps, o), Run(steps + [step], o).agent.conns;
            Enabled(w, step) ==> (id in after <==> Has(w, step, id))
  {
    hide Run, HandleFrames, Frames, Scan;
    var w := Run(steps, o);
    RunStep(steps, step, o);
    if step.AgentRead? && Enabled(w, step) {
      FramesDecide(id, w.agent, ReadFrames(w, step.count));
    }
  }

  // ----- connecting -----

  lemma {:induction false} FramesKeepConnected(id: Uuid, a: Agent, fs: seq<FrameBytes>)
    ensures var after := HandleFrames(a, fs).conns;
            id in after ==>
              if Opened(id, fs) then !after[id].connected
              else id in a.conns && after[id].connected == a.conns[id].connected
    decreases |fs|
  {
    if fs != [] {
      var front, last := fs[..|fs| - 1], fs[|fs| - 1];
      assert fs == front + [last];
      FramesKeepConnected(id, a, front);
      HandleFramesAppend(a, front, last);
      Append(id, front, last);
      hide InlineData, Opened;
    }
  }

  /** In every run, a connection of the agent is connected after a step exactly if it was before or its
      connect finishes in this step; one just opened is not. */
  lemma ConnectedExactly(steps: seq<Step>, step: Step, o: ByteOrder, id: Uuid)
    ensures var w, after := Run(steps, o), Run(steps + [step], o).agent.conns;
            Enabled(w, step) && id in after ==>
              if step.AgentRead? && Opened(id, ReadFrames(w, step.count)) then !after[id].connected
              else id in w.agent.conns
                   && (after[id].connected <==> w.agent.conns[id].connected || step == LocalConnected(id))
  {
    hide Run, HandleFrames, Frames, Scan, Opened;
    var w := Run(steps, o);
    RunStep(steps, step, o);
    if step.AgentRead? && Enabled(w, step) {
      FramesKeepConnected(id, w.agent, ReadFrames(w, step.count));
    }
  }

  /** Data waits exactly as long as the connect does. */
  predicate Waits(c: Local) {
    if c.connected then c.pending == [] else c.issued == []
  }

  ghost predicate AllWait(a: Agent) {
    && (forall id :: id in a.conns ==> Waits(a.conns[id]))
    && (forall id :: id in a.retired ==> Waits(a.retired[id]))
  }

  lemma {:induction false} FramesWait(a: Agent, fs: seq<seq<byte>>)
    requires AllWait(a)
    ensures AllWait(HandleFrames(a, fs))
    decreases |fs|
  {
    if fs != [] {
      FrameWaits(a, fs[0]);
      FramesWait(HandleFrame(a, fs[0]), fs[1..]);
    }
  }

  lemma FrameWaits(a: Agent, f: seq<byte>)
    requires AllWait(a)
    ensures AllWait(HandleFrame(a, f))
  {
    hide InlineData;
  }

  lemma StepWaits(w: World, step: Step, o: ByteOrder)
    requires Enabled(w, step) && AllWait(w.agent)
    ensures AllWait(Next(w, step, o).agent)
  {
    hide HandleFrames, Frames, Scan, AllWait, TakeRead;
    match step
    case AgentRead(count) => FramesWait(w.agent, ReadFrames(w, count));
    case LocalConnected(id) => FlushWaits(w.agent, id);
    case LocalConnectFailed(id) => SendWaits(w.agent, w.agent.sent + [AgentCloseFrame(id, 1)]);
    case LocalBytes(id, data) => BytesWait(w.agent, id, data);
    case LocalEnd(id) =>
      SendWaits(w.agent, w.agent.sent + [AgentCloseFrame(id, 0)]);
      CloseWaits(w.agent.(sent := w.agent.sent + [AgentCloseFrame(id, 0)]), id);
    case LocalWriteFailed(id) => CloseWaits(w.agent, id);
    case ServerRead => TakeReadFrame(w, w.agent.sent[w.returned]);
    case ServerReadOther(bytes) => TakeReadFrame(w, bytes);
    case _ =>
  }

  lemma FlushWaits(a: Agent, id: Uuid)
    requires AllWait(a) && Connecting(a, id)
    ensures AllWait(if id in a.conns then OnConnected(a, id) else OnLateConnected(a, id))
  {
  }

  lemma SendWaits(a: Agent, sent: seq<seq<byte>>)
    requires AllWait(a)
    ensures AllWait(a.(sent := sent))
  {
  }

  lemma BytesWait(a: Agent, id: Uuid, data: seq<byte>)
    requires AllWait(a) && id in a.conns
    ensures AllWait(OnLocalData(a, id, data))
  {
  }

  lemma CloseWaits(a: Agent, id: Uuid)
    requires AllWait(a)
    ensures AllWait(OnClose(a, id))
  {
  }

  lemma {:induction false} RunWaits(steps: seq<Step>, o: ByteOrder)
    ensures AllWait(Run(steps, o).agent)
  {
    hide Next, Enabled;
    if steps != [] {
      hide AllWait;
      var front, last := steps[..|steps| - 1], steps[|steps| - 1];
      RunWaits(front, o);
      if Enabled(Run(front, o), last) { StepWaits(Run(front, o), last, o); }
    }
  }

  /** In every run, nothing is handed to a local socket before its connect has finished, and nothing is
      kept back afterwards. */
  lemma NothingBeforeConnect(steps: seq<Step>, o: ByteOrder, id: Uuid)
    ensures var a := Run(steps, o).agent;
            && (id in a.conns ==> if a.conns[id].connected then a.conns[id].pending == [] else a.conns[id].issued == [])
            && (id in a.retired ==>
                  if a.retired[id].connected then a.retired[id].pending == [] else a.retired[id].issued == [])
  {
    hide Run;
    RunWaits(steps, o);
  }

  /** In every run, a connect that finishes hands all that was queued to the socket, in order and after
      nothing else, also when the connection has left the table. */
  lemma ConnectHandsOver(steps: seq<Step>, o: ByteOrder, id: Uuid)
    requires Enabled(Run(steps, o), LocalConnected(id))
    ensures var a, a' := Run(steps, o).agent, Run(steps + [LocalConnected(id)], o).agent;
            if id in a.conns then
              id in a'.conns && a'.conns[id].connected && a'.conns[id].issued == Concat(a.conns[id].pending)
            else
              && id in a.retired && id in a'.retired && a'.retired[id].connected
              && a'.retired[id].issued == Concat(a.retired[id].pending)
  {
    hide Run, Concat;
    RunStep(steps, LocalConnected(id), o);
    NothingBeforeConnect(steps, o, id);
    var a := Run(steps, o).agent;
    Whole(Concat(if id in a.conns then a.conns[id].pending else a.retired[id].pending));
  }

  /** A connection closed by a frame while its connect is under way keeps what was queued. */
  lemma ClosedKeepsQueue(a: Agent, f: FrameBytes)
    requires IdOf(f) in a.conns && (f[0] == 0x12 || (f[0] == 0x13 && |f| >= 21))
    ensures var a' := HandleFrame(a, f);
            IdOf(f) !in a'.conns && IdOf(f) in a'.retired && a'.retired[IdOf(f)] == a.conns[IdOf(f)]
  {
  }

  // ----- what the agent sends -----

  /** One frame for each local read, with the bytes read, one CLOSE with reason 0 when the local socket
      ends, one with reason 1 when connecting fails, and nothing else. */
  predicate Speaks(sent: seq<seq<byte>>, step: Step, after: seq<seq<byte>>) {
    match step
    case LocalBytes(id, data) =>
      && |after| == |sent| + 1 && after[..|sent|] == sent
      && var f := after[|sent|];
         |f| == 25 + |data| && f[0] == 0x11 && f[1..17] == id && InlineData(f) == Payload(data)
    case LocalEnd(id) => after == sent + [[0x12] + id + [0, 0]]
    case LocalConnectFailed(id) => after == sent + [[0x12] + id + [0, 1]]
    case _ => after == sent
  }

  /** In every run, this is what the agent sends in a step. */
  lemma AgentSpeaks(steps: seq<Step>, step: Step, o: ByteOrder)
    ensures var w, after := Run(steps, o), Run(steps + [step], o).agent.sent;
            Enabled(w, step) ==> Speaks(w.agent.sent, step, after)
  {
    hide Run, Frames, Scan, EncodeData, InlineData, TakeRead;
    var w := Run(steps, o);
    RunStep(steps, step, o);
    if Enabled(w, step) {
      match step
      case LocalBytes(id, data) =>
        var n := w.agent.conns[id].sequence;
        DataHeader(id, n, data);
        InlineDataInvertsEncode(id, n, data);
        SplitConcat(w.agent.sent, [EncodeData(id, n, data)]);
      case AgentRead(count) => HandleAllSendsNothing(w.agent, ReadFrames(w, count));
      case ServerRead => TakeReadFrame(w, w.agent.sent[w.returned]);
      case ServerReadOther(bytes) => TakeReadFrame(w, bytes);
      case _ =>
    }
  }

  // ----- the numbers of the agent's frames -----

  /** How many DATA frames have been sent for a connection. */
  function DataFrames(id: Uuid, sent: seq<FrameBytes>): nat {
    if sent == [] then 0
    else
      var f := sent[|sent| - 1];
      DataFrames(id, sent[..|sent| - 1]) + (if IdOf(f) == id && f[0] == TCP_DATA then 1 else 0)
  }

  /** Each DATA frame of a connection carries the number of those before it. */
  predicate CountedFrame(id: Uuid, sent: seq<FrameBytes>, i: nat)
    requires i < |sent|
  {
    IdOf(sent[i]) == id && sent[i][0] == TCP_DATA ==>
      |sent[i]| >= 25 && FromBe32(sent[i][17..21]) == DataFrames(id, sent[..i]) % 0x1_0000_0000
  }

  predicate AllCounted(id: Uuid, sent: seq<FrameBytes>) {
    forall i :: 0 <= i < |sent| ==> CountedFrame(id, sent, i)
  }

  /** The next number of an open connection; one never opened has sent nothing. */
  predicate NextNumber(id: Uuid, a: Agent, n: nat) {
    if id in a.conns then a.conns[id].sequence == n % 0x1_0000_0000 else id in a.retired || n == 0
  }

  lemma CountedAppend(id: Uuid, sent: seq<FrameBytes>, f: FrameBytes)
    requires AllCounted(id, sent)
    requires IdOf(f) == id && f[0] == TCP_DATA ==>
               |f| >= 25 && FromBe32(f[17..21]) == DataFrames(id, sent) % 0x1_0000_0000
    ensures AllCounted(id, sent + [f])
    ensures DataFrames(id, sent + [f]) == DataFrames(id, sent) + (if IdOf(f) == id && f[0] == TCP_DATA then 1 else 0)
  {
    hide FromBe32;
    var more := sent + [f];
    assert more[..|more| - 1] == sent;
    forall i | 0 <= i < |more| ensures CountedFrame(id, more, i) {
      if i < |sent| {
        assert CountedFrame(id, sent, i) && more[..i] == sent[..i] && more[i] == sent[i];
      }
    }
  }

  lemma FrameKeepsNumber(id: Uuid, a: Agent, fs: seq<FrameBytes>, f: FrameBytes, n: nat)
    requires AgentOk(id, a, fs) && Orderly(id, fs + [f]) && NextNumber(id, a, n)
    ensures NextNumber(id, HandleFrame(a, f), n)
  {
    hide Stream, InlineData, Concat, Numbered;
    Append(id, fs, f);
    if IdOf(f) != id { HandleOther(id, a, f); }
  }

  lemma {:induction false} FramesKeepNumber(id: Uuid, a: Agent, fs: seq<FrameBytes>, more: seq<FrameBytes>, n: nat)
    requires AgentOk(id, a, fs) && Orderly(id, fs + more) && NextNumber(id, a, n)
    ensures NextNumber(id, HandleFrames(a, more), n)
  {
    hide NextNumber, AgentOk;
    if more != [] {
      var front, last := more[..|more| - 1], more[|more| - 1];
      assert more == front + [last];
      Associative(fs, front, [last]);
      OrderlyPrefix(id, fs + front, [last]);
      FramesKeepNumber(id, a, fs, front, n);
      HandleAllKeeps(id, a, fs, front);
      HandleFramesAppend(a, front, last);
      FrameKeepsNumber(id, HandleFrames(a, front), fs + front, last, n);
    }
  }

  ghost predicate Numbers(w: World, id: Uuid)
    requires LongFrames(w.agent.sent)
  {
    AllCounted(id, w.agent.sent) && NextNumber(id, w.agent, DataFrames(id, w.agent.sent))
  }

  lemma ReadNumbers(w: World, count: nat, o: ByteOrder, id: Uuid)
    requires Inv(w) && Enabled(w, AgentRead(count)) && Next(w, AgentRead(count), o).agentFramed
    requires id in w.logs && Numbers(w, id)
    ensures LongFrames(Next(w, AgentRead(count), o).agent.sent) && Numbers(Next(w, AgentRead(count), o), id)
  {
    hide Stream, Orderly, Scan, InlineData, HandleFrames, NextNumber, AllCounted, DataFrames, AgentOk;
    var before, read := Frames(w.server.wire[..w.arrived]), ReadFrames(w, count);
    assert Good(w, id);
    ReadIsMiddle(w, count);
    OrderlyPrefix(id, before + read, Frames(w.server.wire[w.arrived + count..]));
    FramesKeepNumber(id, w.agent, before, read, DataFrames(id, w.agent.sent));
    HandleAllSendsNothing(w.agent, read);
  }

  lemma BytesNumber(a: Agent, u: Uuid, data: seq<byte>, id: Uuid)
    requires LongFrames(a.sent) && u in a.conns
    requires AllCounted(id, a.sent) && NextNumber(id, a, DataFrames(id, a.sent))
    ensures var a' := OnLocalData(a, u, data);
            LongFrames(a'.sent) && AllCounted(id, a'.sent) && NextNumber(id, a', DataFrames(id, a'.sent))
  {
    hide AllCounted, DataFrames, EncodeData, FromBe32;
    var n, m := a.conns[u].sequence, DataFrames(id, a.sent);
    var f := EncodeData(u, n, data);
    DataHeader(u, n, data);
    CountedAppend(id, a.sent, f);
    if u == id { NextModulo(m); }
  }

  lemma NextModulo(n: nat)
    ensures (n % 0x1_0000_0000 + 1) % TWO_32 == (n + 1) % 0x1_0000_0000
  {
  }

  lemma CloseNumber(a: Agent, u: Uuid, reason: u16, id: Uuid)
    requires LongFrames(a.sent)
    requires AllCounted(id, a.sent) && NextNumber(id, a, DataFrames(id, a.sent))
    ensures var a' := a.(sent := a.sent + [AgentCloseFrame(u, reason)]);
            LongFrames(a'.sent) && AllCounted(id, a'.sent) && NextNumber(id, a', DataFrames(id, a'.sent))
  {
    hide AllCounted, DataFrames;
    CountedAppend(id, a.sent, AgentCloseFrame(u, reason));
  }

  lemma StepNumbers(w: World, step: Step, o: ByteOrder, id: Uuid)
    requires Inv(w) && Enabled(w, step) && id in w.logs && Next(w, step, o).agentFramed
    requires LongFrames(w.agent.sent) && Numbers(w, id)
    ensures LongFrames(Next(w, step, o).agent.sent) && Numbers(Next(w, step, o), id)
  {
    hide AllCounted, DataFrames, Inv, HandleFrames, Frames, Scan, TakeRead, AgentCloseFrame, EncodeData;
    match step
    case AgentRead(count) => ReadNumbers(w, count, o, id);
    case LocalBytes(u, data) => BytesNumber(w.agent, u, data, id);
    case LocalEnd(u) => CloseNumber(w.agent, u, 0, id);
    case LocalConnectFailed(u) => CloseNumber(w.agent, u, 1, id);
    case ServerRead => TakeReadFrame(w, w.agent.sent[w.returned]);
    case ServerReadOther(bytes) => TakeReadFrame(w, bytes);
    case _ =>
  }

  lemma {:induction false} SilentIsCounted(id: Uuid, sent: seq<FrameBytes>)
    requires Unmentioned(id, sent)
    ensures AllCounted(id, sent) && DataFrames(id, sent) == 0
  {
    hide FromBe32;
    if sent != [] {
      UnmentionedPrefix(id, sent[..|sent| - 1], [sent[|sent| - 1]]) by {
        assert sent == sent[..|sent| - 1] + [sent[|sent| - 1]];
      }
      SilentIsCounted(id, sent[..|sent| - 1]);
    }
  }

  lemma NewNumbers(w: World, step: Step, o: ByteOrder, id: Uuid)
    requires Inv(w) && w.agentFramed && Enabled(w, step) && id !in w.logs && id in Next(w, step, o).logs
    ensures LongFrames(Next(w, step, o).agent.sent) && Numbers(Next(w, step, o), id)
  {
    hide AllCounted, DataFrames, HandleFrames, Frames, Scan, TakeRead;
    if step.ServerRead? { TakeReadFrame(w, w.agent.sent[w.returned]); }
    if step.ServerReadOther? { TakeReadFrame(w, step.bytes); }
    assert step.Create?;
    SilentIsCounted(id, w.agent.sent);
  }

  lemma StaysFramed(w: World, step: Step, o: ByteOrder)
    requires Enabled(w, step) && Next(w, step, o).agentFramed
    ensures w.agentFramed
  {
    hide HandleFrames, Frames, Scan, TakeRead;
    if step.ServerRead? { TakeReadFrame(w, w.agent.sent[w.returned]); }
    if step.ServerReadOther? { TakeReadFrame(w, step.bytes); }
  }

  lemma {:induction false} RunNumbers(steps: seq<Step>, o: ByteOrder, id: Uuid)
    requires Run(steps, o).agentFramed && id in Run(steps, o).logs
    ensures LongFrames(Run(steps, o).agent.sent) && Numbers(Run(steps, o), id)
  {
    hide Next, Enabled, Inv, Numbers;
    if steps != [] {
      var front, last := steps[..|steps| - 1], steps[|steps| - 1];
      RunKeeps(front, o);
      if Enabled(Run(front, o), last) {
        StaysFramed(Run(front, o), last, o);
        if id in Run(front, o).logs {
          RunNumbers(front, o, id);
          StepNumbers(Run(front, o), last, o, id);
        } else {
          NewNumbers(Run(front, o), last, o, id);
        }
      } else {
        RunNumbers(front, o, id);
      }
    }
  }

  /** As long as the agent's reads end on frame boundaries, the DATA frames it sends for a connection are
      numbered 0, 1, 2 and so on, modulo 2^32: by frames, where the server numbers by bytes. */
  lemma AgentNumbersFrames(steps: seq<Step>, o: ByteOrder, id: Uuid, i: nat)
    ensures var w := Run(steps, o);
            w.agentFramed && id in w.logs ==>
              LongFrames(w.agent.sent) && (i < |w.agent.sent| ==> CountedFrame(id, w.agent.sent, i))
  {
    hide Run, CountedFrame;
    if Run(steps, o).agentFramed && id in Run(steps, o).logs { RunNumbers(steps, o, id); }
  }
}
