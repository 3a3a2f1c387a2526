/** The server: client connections with 64 KB windows, multiplexed over one agent link. */
module TcpProxy {
  import opened Bytes
  import opened TcpProtocol
  import opened ConnectionIds

  const WINDOW := 65536

  // ----- the server as a value -----

  datatype ConnectionState = CONNECTING | ESTABLISHED | CLOSING | CLOSED

  /** `writes` are the blocks of outstanding socket writes, oldest first, each a copy of the receive
      buffer when it was issued; `delivered` is what completed writes have given the client. */
  datatype Conn = Conn(state: ConnectionState, sendBuffer: seq<byte>, recvBuffer: seq<byte>,
                       bytesSent: u64, bytesReceived: u64, writes: seq<seq<byte>>, delivered: seq<byte>)

  /** `wire` is everything written to the agent link while it was up. */
  datatype Server = Server(conns: map<string, Conn>, linkUp: bool, wire: seq<byte>)

  const NEW_CONN := Conn(CONNECTING, [], [], 0, 0, [], [])

  function Transmit(s: Server, frame: seq<byte>): Server {
    if s.linkUp then s.(wire := s.wire + frame) else s
  }

  /** Why `create_connection` gives up before anything is created. */
  datatype Admission = Admitted | TunnelNotFound | NoClientAddress | NotAllowed | AgentNotConnected

  /** The OPEN frame carries port 0, so the agent uses its configured target; the connection is
      established once the frame has been written. */
  function AfterOpen(s: Server, key: string, id: Uuid, o: ByteOrder): Server
    requires key in s.conns
  {
    if s.linkUp then
      Transmit(s, EncodeOpen(id, 0, o)).(conns := s.conns[key := s.conns[key].(state := ESTABLISHED)])
    else s
  }

  function AfterCreate(s: Server, id: Uuid, admission: Admission, o: ByteOrder): Server {
    if !admission.Admitted? then s
    else AfterOpen(s.(conns := s.conns[Text(id) := NEW_CONN]), Text(id), id, o)
  }

  /** How much of `length` bytes fits the send window; the free space is an unsigned difference. */
  function Accepted(c: Conn, length: nat): (n: nat)
    ensures n <= length
    ensures |c.sendBuffer| <= WINDOW ==>
              n == if |c.sendBuffer| + length <= WINDOW then length else WINDOW - |c.sendBuffer|
  {
    var available := (WINDOW - |c.sendBuffer|) % TWO_64;
    if length <= available then length else available
  }

  function Buffered(c: Conn, data: seq<byte>): Conn {
    c.(sendBuffer := c.sendBuffer + data, bytesSent := (c.bytesSent as int + |data|) % TWO_64)
  }

  /** The DATA frame of bytes just buffered; an id that is not a UUID text sends nothing. */
  function AfterTransmit(s: Server, id: string, data: seq<byte>): Server
    requires id in s.conns
  {
    match Parse(id)
    case None => s
    case Some(uuid) =>
      var sequence := (s.conns[id].bytesSent as int - |data|) % TWO_64 % TWO_32;
      Transmit(s, EncodeData(uuid, sequence, data))
  }

  datatype SendResult = SendResult(server: Server, sent: nat)

  function Takes(s: Server, id: string, length: nat): (n: nat)
    ensures n <= length && (n > 0 ==> id in s.conns)
  {
    if id in s.conns && s.conns[id].state == ESTABLISHED then Accepted(s.conns[id], length) else 0
  }

  function AfterSend(s: Server, id: string, data: seq<byte>): SendResult {
    var n := Takes(s, id, |data|);
    if n == 0 then SendResult(s, 0)
    else
      var buffered := s.(conns := s.conns[id := Buffered(s.conns[id], data[..n])]);
      SendResult(AfterTransmit(buffered, id, data[..n]), if Parse(id).Some? then n else 0)
  }

  function Received(c: Conn, data: seq<byte>): Conn {
    c.(recvBuffer := c.recvBuffer + data, bytesReceived := (c.bytesReceived as int + |data|) % TWO_64)
  }

  function AfterReceive(s: Server, id: string, data: seq<byte>): Server {
    if id !in s.conns || |s.conns[id].recvBuffer| + |data| > WINDOW then s
    else s.(conns := s.conns[id := Received(s.conns[id], data)])
  }

  function AfterWindowUpdate(s: Server, id: string, consumed: nat): Server {
    if id !in s.conns || consumed > |s.conns[id].sendBuffer| then s
    else s.(conns := s.conns[id := s.conns[id].(sendBuffer := s.conns[id].sendBuffer[consumed..])])
  }

  predicate CanSend(s: Server, id: string) {
    id in s.conns && |s.conns[id].sendBuffer| < WINDOW
  }

  function CloseFrame(id: string): seq<byte> {
    [TCP_CLOSE] + CloseFrameId(id) + [0, 0]
  }

  function AfterClose(s: Server, id: string, graceful: bool): Server {
    if id !in s.conns then s
    else
      var s' := if graceful && s.conns[id].sendBuffer != []
                then s.(conns := s.conns[id := s.conns[id].(state := CLOSING)])
                else s.(conns := s.conns - {id});
      Transmit(s', CloseFrame(id))
  }

  /** `write_to_client` issues one socket write for the whole receive buffer. */
  function IssueWrite(c: Conn): Conn {
    if c.recvBuffer == [] then c else c.(writes := c.writes + [c.recvBuffer])
  }

  /** The oldest write has completed. When writes overlap, the erase can run past the buffer. */
  function CompleteWrite(c: Conn): Conn
    requires c.writes != []
  {
    var block := c.writes[0];
    var rest := if |block| <= |c.recvBuffer| then c.recvBuffer[|block|..] else [];
    IssueWrite(c.(recvBuffer := rest, writes := c.writes[1..], delivered := c.delivered + block))
  }

  function AfterWriteDone(s: Server, id: string): Server
    requires id in s.conns && s.conns[id].writes != []
  {
    s.(conns := s.conns[id := CompleteWrite(s.conns[id])])
  }

  function AfterWrite(s: Server, id: string): Server {
    if id in s.conns then s.(conns := s.conns[id := IssueWrite(s.conns[id])]) else s
  }

  /** `handle_agent_tcp_frame` on one read from the agent. */
  function AfterAgentFrame(s: Server, frame: seq<byte>): Server {
    if |frame| < 17 then s
    else
      var id := Text(frame[1..17]);
      if frame[0] == TCP_DATA then
        var payload := InlineData(frame);
        if payload.Payload? then AfterWrite(AfterReceive(s, id, payload.bytes), id) else s
      else if frame[0] == TCP_CLOSE then AfterClose(s, id, true)
      else if frame[0] == TCP_ERROR then (if |frame| >= 21 then AfterClose(s, id, false) else s)
      else s
  }

  // ----- the classes -----

  class AgentLink {
    var connected: bool
    var wire: seq<byte>

    constructor (connected: bool)
      ensures this.connected == connected && wire == []
    {
      this.connected := connected;
      wire := [];
    }

    /** `send_tcp_data`: the callback's error flag is the result. */
    method SendTcpData(frame: seq<byte>) returns (error: bool)
      modifies this`wire
      ensures error == !connected
      ensures wire == if connected then old(wire) + frame else old(wire)
    {
      if !connected {
        return true;
      }
      wire := wire + frame;
      return false;
    }

    method SendTcpClose(id: string)
      modifies this`wire
      ensures wire == if connected then old(wire) + CloseFrame(id) else old(wire)
    {
      if !connected {
        return;
      }
      var frame: seq<byte> := [TCP_CLOSE];
      var i := 0;
      while i < 16 && i < |id|
        invariant i <= 16 && i <= |id|
        invariant frame == [TCP_CLOSE] + CloseFrameId(id)[..i]
      {
        frame := frame + [id[i] as int % 0x100];
        i := i + 1;
      }
      while |frame| < 17
        invariant 1 <= |frame| <= 17 && (|frame| <= 16 ==> |id| < |frame|)
        invariant frame == [TCP_CLOSE] + CloseFrameId(id)[..|frame| - 1]
        decreases 17 - |frame|
      {
        frame := frame + [0];
      }
      frame := frame + [0];
      frame := frame + [0];
      assert frame == CloseFrame(id);
      wire := wire + frame;
    }
  }

  class TCPConnection {
    var connectionId: string
    var state: ConnectionState
    var sendBuffer: seq<byte>
    var recvBuffer: seq<byte>
    var bytesSent: u64
    var bytesReceived: u64
    var writes: seq<seq<byte>>
    var delivered: seq<byte>

    constructor ()
      ensures View() == NEW_CONN
    {
      connectionId := "";
      state := CONNECTING;
      sendBuffer, recvBuffer := [], [];
      bytesSent, bytesReceived := 0, 0;
      writes, delivered := [], [];
    }

    function View(): Conn
      reads this
    {
      Conn(state, sendBuffer, recvBuffer, bytesSent, bytesReceived, writes, delivered)
    }

    ghost predicate Holds(id: string, value: Conn)
      reads this
    {
      connectionId == id && View() == value
    }

    method Buffer(data: seq<byte>)
      modifies this`sendBuffer, this`bytesSent
      ensures View() == Buffered(old(View()), data)
    {
      sendBuffer := sendBuffer + data;
      bytesSent := (bytesSent as int + |data|) % TWO_64;
    }

    method Receive(data: seq<byte>)
      modifies this`recvBuffer, this`bytesReceived
      ensures View() == Received(old(View()), data)
    {
      recvBuffer := recvBuffer + data;
      bytesReceived := (bytesReceived as int + |data|) % TWO_64;
    }

    method WriteToClient()
      modifies this`writes
      ensures View() == IssueWrite(old(View()))
    {
      if recvBuffer == [] {
        return;
      }
      writes := writes + [recvBuffer];
    }

    method OnWriteDone()
      requires writes != []
      modifies this`recvBuffer, this`writes, this`delivered
      ensures View() == CompleteWrite(old(View()))
    {
      var block := writes[0];
      delivered := delivered + block;
      writes := writes[1..];
      recvBuffer := if |block| <= |recvBuffer| then recvBuffer[|block|..] else [];
      if recvBuffer != [] {
        WriteToClient();
      }
    }
  }

  class TCPProxy {
    const order: ByteOrder
    const link: AgentLink
    var connections: map<string, TCPConnection>

    /** What the table holds, as values. */
    ghost var conns: map<string, Conn>

    /** Every entry is filed under its own id, so entries are distinct objects. */
    ghost predicate Valid()
      reads this, connections.Values
    {
      && conns.Keys == connections.Keys
      && forall id {:trigger connections[id]} :: id in connections ==> connections[id].Holds(id, conns[id])
    }

    ghost function View(): Server
      reads this, link
    {
      Server(conns, link.connected, link.wire)
    }

    constructor (o: ByteOrder, l: AgentLink)
      ensures Valid() && View() == Server(map[], l.connected, l.wire)
      ensures order == o && link == l && connections == map[]
    {
      order, link, connections, conns := o, l, map[], map[];
    }

    method StoreConnection(key: string)
      requires Valid()
      modifies this
      ensures Valid() && conns == old(conns)[key := NEW_CONN]
      ensures key in connections && fresh(connections[key])
      ensures connections == old(connections)[key := connections[key]]
    {
      var connection := new TCPConnection();
      connection.connectionId := key;
      connections := connections[key := connection];
      conns := conns[key := NEW_CONN];
    }

    method CreateConnection(id: Uuid, admission: Admission)
      requires Valid()
      modifies this, link`wire
      ensures Valid() && View() == AfterCreate(old(View()), id, admission, order)
      ensures fresh(connections.Values - old(connections.Values))
    {
      if !admission.Admitted? {
        return;
      }
      var key := ConnectionIdToString(id);
      StoreConnection(key);
      SendOpen(key, id);
    }

    method SendOpen(key: string, id: Uuid)
      requires Valid() && key in connections
      modifies this`conns, connections[key], link`wire
      ensures Valid() && View() == AfterOpen(old(View()), key, id, order)
    {
      var error := link.SendTcpData(EncodeOpen(id, 0, order));
      if !error {
        SetState(key, ESTABLISHED);
      }
    }

    method SetState(id: string, state: ConnectionState)
      requires Valid() && id in connections
      modifies this`conns, connections[id]
      ensures Valid() && conns == old(conns)[id := old(conns)[id].(state := state)]
    {
      connections[id].state := state;
      conns := conns[id := connections[id].View()];
    }

    /** Queues bytes that fit the window. */
    method BufferData(id: string, data: seq<byte>)
      requires Valid() && id in connections
      modifies this`conns, connections[id]
      ensures Valid() && conns == old(conns)[id := Buffered(old(conns)[id], data)]
    {
      hide Buffered;
      connections[id].Buffer(data);
      conns := conns[id := connections[id].View()];
    }

    /** Sends the newest bytes of the stream, numbered by the count of bytes before them. */
    method TransmitData(id: string, data: seq<byte>) returns (ok: bool)
      requires Valid() && id in connections
      modifies link`wire
      ensures Valid() && ok == Parse(id).Some?
      ensures View() == AfterTransmit(old(View()), id, data)
    {
      var uuid := StringToConnectionId(id);
      if uuid.None? {
        return false;
      }
      var sequence := (connections[id].bytesSent as int - |data|) % TWO_64 % TWO_32;
      var _ := link.SendTcpData(EncodeData(uuid.value, sequence, data));
      return true;
    }

    /** How many of `length` bytes the connection takes now. */
    method SpaceFor(id: string, length: nat) returns (n: nat)
      requires Valid()
      ensures n == Takes(View(), id, length)
    {
      if id !in connections {
        return 0;
      }
      var connection := connections[id];
      if connection.state != ESTABLISHED {
        return 0;
      }
      var available := (WINDOW - |connection.sendBuffer|) % TWO_64;
      n := if length <= available then length else available;
    }

    method SendData(id: string, data: seq<byte>) returns (sent: nat)
      requires Valid()
      modifies this`conns, connections.Values, link`wire
      ensures Valid() && SendResult(View(), sent) == AfterSend(old(View()), id, data)
    {
      sent := SpaceFor(id, |data|);
      if sent == 0 {
        return 0;
      }
      BufferData(id, data[..sent]);
      var ok := TransmitData(id, data[..sent]);
      if !ok {
        sent := 0;
      }
    }

    method ReceiveData(id: string, data: seq<byte>)
      requires Valid()
      modifies this`conns, connections.Values
      ensures Valid() && View() == AfterReceive(old(View()), id, data)
    {
      if id !in connections {
        return;
      }
      hide Received;
      if |connections[id].recvBuffer| + |data| > WINDOW {
        return;
      }
      connections[id].Receive(data);
      conns := conns[id := connections[id].View()];
    }

    method CanSendNow(id: string) returns (can: bool)
      requires Valid()
      ensures can == CanSend(View(), id)
    {
      can := id in connections && |connections[id].sendBuffer| < WINDOW;
    }

    method UpdateWindow(id: string, consumed: nat)
      requires Valid()
      modifies this`conns, connections.Values
      ensures Valid() && View() == AfterWindowUpdate(old(View()), id, consumed)
    {
      if id !in connections {
        return;
      }
      var connection := connections[id];
      if consumed <= |connection.sendBuffer| {
        connection.sendBuffer := connection.sendBuffer[consumed..];
        conns := conns[id := connection.View()];
      }
    }

    method CloseConnection(id: string, graceful: bool)
      requires Valid()
      modifies this, connections.Values, link`wire
      ensures Valid() && View() == AfterClose(old(View()), id, graceful)
      ensures connections.Values <= old(connections.Values)
    {
      if id !in connections {
        return;
      }
      if graceful && connections[id].sendBuffer != [] {
        SetState(id, CLOSING);
      } else {
        Cleanup(id);
      }
      link.SendTcpClose(id);
    }

    method Cleanup(id: string)
      requires Valid() && id in connections
      modifies this, connections[id]
      ensures Valid() && conns == old(conns) - {id}
      ensures connections == old(connections) - {id} && old(connections)[id].state == CLOSED
    {
      connections[id].state := CLOSED;
      connections := connections - {id};
      conns := conns - {id};
    }

    method ClientWriteDone(id: string)
      requires Valid() && id in connections && connections[id].writes != []
      modifies this`conns, connections.Values
      ensures Valid() && View() == AfterWriteDone(old(View()), id)
    {
      connections[id].OnWriteDone();
      conns := conns[id := connections[id].View()];
    }

    /** Buffered data is written to the client as soon as it arrives. */
    method WriteBuffered(id: string)
      requires Valid()
      modifies this`conns, connections.Values
      ensures Valid() && View() == AfterWrite(old(View()), id)
    {
      if id in connections {
        connections[id].WriteToClient();
        conns := conns[id := connections[id].View()];
      }
    }

    method HandleAgentTcpFrame(frame: seq<byte>)
      requires Valid()
      modifies this, connections.Values, link`wire
      ensures Valid() && View() == AfterAgentFrame(old(View()), frame)
      ensures connections.Values <= old(connections.Values)
    {
      if |frame| < 17 {
        return;
      }
      var id := ConnectionIdToString(frame[1..17]);
      if frame[0] == TCP_DATA {
        var payload := InlineData(frame);
        if payload.Payload? {
          ReceiveData(id, payload.bytes);
          WriteBuffered(id);
        }
      } else if frame[0] == TCP_CLOSE {
        CloseConnection(id, true);
      } else if frame[0] == TCP_ERROR {
        if |frame| >= 21 {
          CloseConnection(id, false);
        }
      }
    }
  }
}
