/** Every run of one server, one agent and the link between them, with any number of interleaved
    connections.

    Steps are the events the program reacts to. A step that is not possible in a state leaves it
    unchanged, so every list of steps is a run. The one assumption about the surroundings is that new
    ids are fresh. Reads may cut the streams anywhere and writes to a client may overlap; the state
    records whether they have, and what holds only as long as they have not says so. */
module Tunnel {
  import opened Bytes
  import opened Sequences
  import opened TcpProtocol
  import opened ConnectionIds
  import opened FrameScanner
  import opened Streams
  import opened TcpProxy
  import opened TcpForwarder

  /** What happened to one connection: bytes `send_data` accepted, bytes `update_window` released,
      bytes accepted from the agent, whether any were refused, whether some arrived while a write to the
      client was outstanding, bytes read from the local socket. */
  datatype Log = Log(accepted: seq<byte>, consumed: seq<byte>, received: seq<byte>, refused: bool,
                     overlapped: bool, localRead: seq<byte>)

  const NEW_LOG := Log([], [], [], false, false, [])

  /** `arrived` counts the wire's bytes the agent has read, `returned` the agent's frames the server
      has read; `logs` has an entry for every connection ever created. `agentFramed` says that every
      read of the agent has ended on a frame boundary so far, `serverFramed` that every read of the
      server has been the agent's next frame. */
  datatype World = World(server: Server, agent: Agent, arrived: nat, returned: nat, logs: map<Uuid, Log>,
                         agentFramed: bool, serverFramed: bool)

  const INITIAL := World(Server(map[], true, []), NO_AGENT_STATE, 0, 0, map[], true, true)

  datatype Step =
    | Create(id: Uuid, admission: Admission)
    | ClientData(id: Uuid, data: seq<byte>)
    | WindowUpdate(id: Uuid, count: nat)
    | ServerClose(id: Uuid, graceful: bool)
    | ClientWritten(id: Uuid)
    | LinkLost
    | AgentRead(count: nat)
    | LocalConnected(id: Uuid)
    | LocalConnectFailed(id: Uuid)
    | LocalBytes(id: Uuid, data: seq<byte>)
    | LocalEnd(id: Uuid)
    | LocalWriteFailed(id: Uuid)
    | ServerRead
    | ServerReadOther(bytes: seq<byte>)

  function CloseId(id: Uuid): Uuid {
    CloseFrameId(Text(id))
  }

  /** A new random id repeats no earlier one and no id that a CLOSE frame spells. */
  predicate Fresh(id: Uuid, logs: map<Uuid, Log>) {
    id !in logs && CloseId(id) !in logs && CloseId(id) != id && forall v :: v in logs ==> CloseId(v) != id
  }

  predicate LongFrames(fs: seq<seq<byte>>) {
    forall i :: 0 <= i < |fs| ==> |fs[i]| >= 19
  }

  /** The local connect of a connection is under way, whether or not the table still has it. */
  predicate Connecting(a: Agent, id: Uuid) {
    if id in a.conns then !a.conns[id].connected else id in a.retired && !a.retired[id].connected
  }

  predicate Enabled(w: World, step: Step) {
    match step
    case Create(id, _) => Fresh(id, w.logs)
    case ClientData(id, _) => id in w.logs
    case WindowUpdate(id, _) => id in w.logs
    case ServerClose(id, _) => id in w.logs
    case ClientWritten(id) => Text(id) in w.server.conns && w.server.conns[Text(id)].writes != []
    case LinkLost => true
    case AgentRead(count) => w.arrived + count <= |w.server.wire|
    case LocalConnected(id) => Connecting(w.agent, id)
    case LocalConnectFailed(id) => Connecting(w.agent, id)
    case LocalBytes(id, data) => id in w.agent.conns && w.agent.conns[id].connected && |data| <= 8192
    case LocalEnd(id) => id in w.agent.conns && w.agent.conns[id].connected
    case LocalWriteFailed(id) => id in w.agent.conns && w.agent.conns[id].connected
    case ServerRead => w.returned < |w.agent.sent|
    case ServerReadOther(_) => true
  }

  /** Whether the server will take a payload that the agent sent for `id`. */
  predicate Fits(s: Server, id: Uuid, payload: seq<byte>) {
    Text(id) in s.conns && |s.conns[Text(id)].recvBuffer| + |payload| <= WINDOW
  }

  /** Whether a write to the client is outstanding. */
  predicate Writing(s: Server, id: Uuid) {
    Text(id) in s.conns && s.conns[Text(id)].writes != []
  }

  function Receive(l: Log, taken: bool, writing: bool, payload: seq<byte>): Log {
    l.(received := if taken then l.received + payload else l.received,
       refused := l.refused || (!taken && payload != []),
       overlapped := l.overlapped || writing)
  }

  /** The server handles one read from the agent, whatever its bytes. */
  function TakeRead(w: World, bytes: seq<byte>): World {
    var server := AfterAgentFrame(w.server, bytes);
    if |bytes| < 17 || bytes[0] != TCP_DATA || !InlineData(bytes).Payload? || bytes[1..17] !in w.logs then
      w.(server := server)
    else
      var id: Uuid, payload := bytes[1..17], InlineData(bytes).bytes;
      var l := Receive(w.logs[id], Fits(w.server, id, payload), Writing(w.server, id), payload);
      w.(server := server, logs := w.logs[id := l])
  }

  function Next(w: World, step: Step, o: ByteOrder): World
    requires Enabled(w, step)
  {
    match step
    case Create(id, admission) =>
      w.(server := AfterCreate(w.server, id, admission, o),
         logs := if admission.Admitted? then w.logs[id := NEW_LOG] else w.logs)
    case ClientData(id, data) =>
      var r := AfterSend(w.server, Text(id), data);
      var taken := data[..if r.sent <= |data| then r.sent else 0];
      w.(server := r.server,
         logs := w.logs[id := w.logs[id].(accepted := w.logs[id].accepted + taken)])
    case WindowUpdate(id, count) =>
      var key := Text(id);
      var released := if key in w.server.conns && count <= |w.server.conns[key].sendBuffer|
                      then w.server.conns[key].sendBuffer[..count] else [];
      w.(server := AfterWindowUpdate(w.server, key, count),
         logs := w.logs[id := w.logs[id].(consumed := w.logs[id].consumed + released)])
    case ServerClose(id, graceful) => w.(server := AfterClose(w.server, Text(id), graceful))
    case ClientWritten(id) => w.(server := AfterWriteDone(w.server, Text(id)))
    case LinkLost => w.(server := w.server.(linkUp := false))
    case AgentRead(count) =>
      var chunk := w.server.wire[w.arrived..w.arrived + count];
      w.(agent := HandleFrames(w.agent, Frames(chunk)), arrived := w.arrived + count,
         agentFramed := w.agentFramed && Framed(chunk))
    case LocalConnected(id) =>
      w.(agent := if id in w.agent.conns then OnConnected(w.agent, id) else OnLateConnected(w.agent, id))
    case LocalConnectFailed(id) => w.(agent := OnConnectFailed(w.agent, id))
    case LocalBytes(id, data) =>
      w.(agent := OnLocalData(w.agent, id, data),
         logs := if id in w.logs then w.logs[id := w.logs[id].(localRead := w.logs[id].localRead + data)] else w.logs)
    case LocalEnd(id) => w.(agent := OnLocalClosed(w.agent, id))
    case LocalWriteFailed(id) => w.(agent := OnClose(w.agent, id))
    case ServerRead => TakeRead(w, w.agent.sent[w.returned]).(returned := w.returned + 1)
    case ServerReadOther(bytes) => TakeRead(w, bytes).(serverFramed := false)
  }

  function Run(steps: seq<Step>, o: ByteOrder): World {
    if steps == [] then INITIAL
    else
      var w := Run(steps[..|steps| - 1], o);
      var last := steps[|steps| - 1];
      if Enabled(w, last) then Next(w, last, o) else w
  }

  // ----- the invariant -----

  predicate KnownFrame(f: FrameBytes, logs: map<Uuid, Log>) {
    IdOf(f) in logs || (f[0] == TCP_CLOSE && exists v :: v in logs && CloseId(v) == IdOf(f))
  }

  predicate KnownFrames(fs: seq<FrameBytes>, logs: map<Uuid, Log>) {
    forall i :: 0 <= i < |fs| ==> KnownFrame(fs[i], logs)
  }

  predicate NoClash(logs: map<Uuid, Log>) {
    forall u, v {:trigger CloseId(u), v in logs} :: u in logs && v in logs ==> CloseId(u) != v
  }

  /** Every table key is the text of a created id. */
  predicate KeyKnown(key: string, logs: map<Uuid, Log>) {
    Parse(key).Some? && Parse(key).value in logs && Text(Parse(key).value) == key
  }

  /** What has gone down the wire for a connection: in order, numbered, and all of what was accepted
      unless the link was lost. */
  predicate DownOk(id: Uuid, l: Log, linkUp: bool, fs: seq<FrameBytes>) {
    && Orderly(id, fs)
    && Stream(id, fs) <= l.accepted
    && (linkUp ==> Stream(id, fs) == l.accepted)
    && (l.accepted != [] ==> Opened(id, fs))
  }

  /** The agent has issued and queued exactly what has arrived for an open connection, and a prefix of
      it for one that has left the table. */
  predicate AgentOk(id: Uuid, a: Agent, arrived: seq<FrameBytes>) {
    if !Opened(id, arrived) then id !in a.conns && id !in a.retired
    else if id in a.conns then
      var c := a.conns[id];
      id !in a.retired && c.issued + Concat(c.pending) == Stream(id, arrived) && (c.connected ==> c.pending == [])
    else id in a.retired && a.retired[id].issued + Concat(a.retired[id].pending) <= Stream(id, arrived)
  }

  /** The client is given what was received, in order, unless a payload met an outstanding write; then
      the writes hold more than was received, for good. */
  predicate ClientOk(c: Conn, l: Log) {
    if l.overlapped then |c.delivered| + |Concat(c.writes)| > |l.received|
    else
      && l.received == c.delivered + c.recvBuffer
      && (c.writes == [] || (|c.writes| == 1 && [] < c.writes[0] <= c.recvBuffer))
  }

  /** What waits for the client is being written: the newest write holds all of it. */
  predicate BeingWritten(c: Conn) {
    && (forall i :: 0 <= i < |c.writes| ==> c.writes[i] != [])
    && (c.recvBuffer == [] || (c.writes != [] && c.writes[|c.writes| - 1] == c.recvBuffer))
  }

  predicate ConnOk(c: Conn, l: Log, isOpen: bool) {
    && c.state != CLOSED && (c.state != CONNECTING ==> isOpen)
    && |c.sendBuffer| <= WINDOW && |c.recvBuffer| <= WINDOW
    && l.accepted == l.consumed + c.sendBuffer && c.bytesSent == |l.accepted| % TWO_64
    && c.bytesReceived == |l.received| % TWO_64 && ClientOk(c, l) && BeingWritten(c)
  }

  predicate TableOk(id: Uuid, l: Log, conns: map<string, Conn>, fs: seq<FrameBytes>) {
    Text(id) in conns ==> ConnOk(conns[Text(id)], l, Opened(id, fs))
  }

  /** What has come back: nothing is lost or reordered exactly if nothing was refused. */
  predicate UpOk(id: Uuid, l: Log, sent: seq<FrameBytes>, returned: nat)
    requires returned <= |sent|
  {
    && Stream(id, sent) == l.localRead
    && if l.refused then |l.received| < |Stream(id, sent[..returned])|
       else l.received == Stream(id, sent[..returned])
  }

  predicate Wired(w: World) {
    && Framed(w.server.wire)
    && w.arrived <= |w.server.wire| && (w.agentFramed ==> Framed(w.server.wire[..w.arrived]))
    && LongFrames(w.agent.sent) && w.returned <= |w.agent.sent|
  }

  /** The agent knows created ids only. */
  predicate AgentKnown(a: Agent, logs: map<Uuid, Log>)
    requires LongFrames(a.sent)
  {
    && (forall i :: 0 <= i < |a.sent| ==> a.sent[i][1..17] in logs)
    && a.conns.Keys <= logs.Keys && a.retired.Keys <= logs.Keys
  }

  predicate IdsKnown(w: World)
    requires Wired(w)
  {
    && NoClash(w.logs)
    && KnownFrames(Frames(w.server.wire), w.logs)
    && (w.agentFramed ==> AgentKnown(w.agent, w.logs))
    && (forall key {:trigger KeyKnown(key, w.logs)} :: key in w.server.conns ==> KeyKnown(key, w.logs))
  }

  predicate Good(w: World, id: Uuid)
    requires Wired(w) && id in w.logs
  {
    && DownOk(id, w.logs[id], w.server.linkUp, Frames(w.server.wire))
    && TableOk(id, w.logs[id], w.server.conns, Frames(w.server.wire))
    && (w.agentFramed ==> AgentOk(id, w.agent, Frames(w.server.wire[..w.arrived])))
    && (w.agentFramed && w.serverFramed ==> UpOk(id, w.logs[id], w.agent.sent, w.returned))
  }

  predicate Inv(w: World) {
    && Wired(w)
    && IdsKnown(w)
    && forall id {:trigger Good(w, id)} :: id in w.logs ==> Good(w, id)
  }
}
