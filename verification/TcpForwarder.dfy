/** The agent: one local connection per tunnelled connection, with data queued until the local
    connect has finished. */
module TcpForwarder {
  import opened Bytes
  import opened Sequences
  import opened TcpProtocol
  import opened FrameScanner

  // ----- the agent as a value -----

  /** `issued` is what has been handed to the local socket's writes, in order. */
  datatype Local = Local(connected: bool, pending: seq<seq<byte>>, sequence: u32, issued: seq<byte>)

  /** `retired` keeps connections that have left the table: the handler of a connect under way still
      holds one of them. `sent` are the frames passed to the send callback. */
  datatype Agent = Agent(conns: map<Uuid, Local>, retired: map<Uuid, Local>, sent: seq<seq<byte>>)

  const NO_AGENT_STATE := Agent(map[], map[], [])

  function OnOpen(a: Agent, id: Uuid): Agent {
    a.(conns := a.conns[id := Local(false, [], 0, [])])
  }

  /** Data waits for the connect, and is written at once after it. */
  function Given(c: Local, data: seq<byte>): Local {
    if !c.connected then c.(pending := c.pending + [data]) else c.(issued := c.issued + data)
  }

  function OnData(a: Agent, id: Uuid, data: seq<byte>): Agent {
    if id !in a.conns then a else a.(conns := a.conns[id := Given(a.conns[id], data)])
  }

  /** `close_connection`: the socket is closed and the entry erased. */
  function OnClose(a: Agent, id: Uuid): Agent {
    if id !in a.conns then a
    else a.(conns := a.conns - {id}, retired := a.retired[id := a.conns[id]])
  }

  /** The local connect finished: queued data is written before anything else. */
  function Flushed(c: Local): Local {
    c.(connected := true, issued := c.issued + Concat(c.pending), pending := [])
  }

  function OnConnected(a: Agent, id: Uuid): Agent
    requires id in a.conns
  {
    a.(conns := a.conns[id := Flushed(a.conns[id])])
  }

  /** The entry was erased while the name was being resolved; the handler connects and flushes its
      connection all the same. */
  function OnLateConnected(a: Agent, id: Uuid): Agent
    requires id in a.retired
  {
    a.(retired := a.retired[id := Flushed(a.retired[id])])
  }

  function AgentCloseFrame(id: Uuid, reason: u16): seq<byte> {
    [TCP_CLOSE] + id + Be16(reason)
  }

  /** Resolving or connecting failed: the server is told, the entry stays. */
  function OnConnectFailed(a: Agent, id: Uuid): Agent {
    a.(sent := a.sent + [AgentCloseFrame(id, 1)])
  }

  function OnLocalData(a: Agent, id: Uuid, data: seq<byte>): Agent
    requires id in a.conns
  {
    var c := a.conns[id];
    a.(conns := a.conns[id := c.(sequence := (c.sequence as int + 1) % TWO_32)],
       sent := a.sent + [EncodeData(id, c.sequence, data)])
  }

  function OnLocalClosed(a: Agent, id: Uuid): Agent {
    OnClose(a.(sent := a.sent + [AgentCloseFrame(id, 0)]), id)
  }

  /** `handle_tcp_frame` on one frame. */
  function HandleFrame(a: Agent, frame: seq<byte>): Agent {
    if |frame| < 17 then a
    else
      var id: Uuid := frame[1..17];
      if frame[0] == TCP_OPEN then (if |frame| >= 19 then OnOpen(a, id) else a)
      else if frame[0] == TCP_DATA then
        var payload := InlineData(frame);
        if payload.Payload? then OnData(a, id, payload.bytes) else a
      else if frame[0] == TCP_CLOSE then OnClose(a, id)
      else if frame[0] == TCP_ERROR then (if |frame| >= 21 then OnClose(a, id) else a)
      else a
  }

  function HandleFrames(a: Agent, frames: seq<seq<byte>>): Agent
    decreases |frames|
  {
    if frames == [] then a else HandleFrames(HandleFrame(a, frames[0]), frames[1..])
  }

  lemma HandleFramesAppend(a: Agent, frames: seq<seq<byte>>, last: seq<byte>)
    ensures HandleFrames(a, frames + [last]) == HandleFrame(HandleFrames(a, frames), last)
    decreases |frames|
  {
    if frames != [] {
      assert (frames + [last])[1..] == frames[1..] + [last];
      HandleFramesAppend(HandleFrame(a, frames[0]), frames[1..], last);
    }
  }

  // ----- the classes -----

  class TCPConnection {
    const connectionId: Uuid
    var connected: bool
    var pendingData: seq<seq<byte>>
    var sequenceNumber: u32
    var issued: seq<byte>

    constructor (id: Uuid)
      ensures connectionId == id && View() == Local(false, [], 0, [])
    {
      connectionId := id;
      connected := false;
      pendingData := [];
      sequenceNumber := 0;
      issued := [];
    }

    function View(): Local
      reads this
    {
      Local(connected, pendingData, sequenceNumber, issued)
    }

    method Receive(data: seq<byte>)
      modifies this
      ensures View() == Given(old(View()), data)
    {
      if !connected {
        pendingData := pendingData + [data];
        return;
      }
      issued := issued + data;
    }

    /** The number of the next DATA frame, which the one after it follows. */
    method NextSequence() returns (n: u32)
      modifies this
      ensures n == old(sequenceNumber) && View() == old(View()).(sequence := (n as int + 1) % TWO_32)
    {
      n := sequenceNumber;
      sequenceNumber := (sequenceNumber as int + 1) % TWO_32;
    }

    ghost predicate Holds(id: Uuid, value: Local)
      reads this
    {
      connectionId == id && View() == value
    }

    /** Runs when the local connect succeeds: one write per queued block, then the queue is cleared. */
    method FlushPending()
      modifies this
      ensures View() == Flushed(old(View()))
    {
      connected := true;
      if pendingData != [] {
        for i := 0 to |pendingData|
          invariant pendingData == old(pendingData) && sequenceNumber == old(sequenceNumber) && connected
          invariant issued == old(issued) + Concat(pendingData[..i])
        {
          assert pendingData[..i + 1] == pendingData[..i] + [pendingData[i]];
          ConcatAppend(pendingData[..i], pendingData[i]);
          Associative(old(issued), Concat(pendingData[..i]), pendingData[i]);
          issued := issued + pendingData[i];
        }
        Whole(pendingData);
        pendingData := [];
      }
    }
  }

  class TCPForwarder {
    const machine: Machine
    var connections: map<Uuid, TCPConnection>
    var sent: seq<seq<byte>>

    /** What the table holds, as values, and what was held by connections that have left it. */
    ghost var conns: map<Uuid, Local>
    ghost var retired: map<Uuid, Local>

    /** Every entry is filed under its own id, so entries are distinct objects. */
    ghost predicate Valid()
      reads this, connections.Values
    {
      && conns.Keys == connections.Keys
      && forall id {:trigger connections[id]} :: id in connections ==> connections[id].Holds(id, conns[id])
    }

    ghost function View(): Agent
      reads this
    {
      Agent(conns, retired, sent)
    }

    ghost predicate Current(conn: TCPConnection)
      reads this, conn
    {
      conn.connectionId in connections && connections[conn.connectionId] == conn
    }

    /** A connection that has left the table is as it was then: only its own handlers reach it. */
    ghost predicate Late(conn: TCPConnection)
      reads this, conn
    {
      && conn !in connections.Values
      && conn.connectionId in retired && retired[conn.connectionId] == conn.View()
    }

    constructor (m: Machine)
      ensures Valid() && View() == NO_AGENT_STATE && machine == m && connections == map[]
    {
      machine := m;
      connections, conns, retired := map[], map[], map[];
      sent := [];
    }

    method HandleTcpOpen(id: Uuid, targetPort: u16)
      requires Valid()
      modifies this`connections, this`conns
      ensures Valid() && View() == OnOpen(old(View()), id)
      ensures fresh(connections.Values - old(connections.Values))
    {
      var conn := new TCPConnection(id);
      connections := connections[id := conn];
      conns := conns[id := conn.View()];
    }

    method HandleTcpData(id: Uuid, data: seq<byte>)
      requires Valid()
      modifies this`conns, connections.Values
      ensures Valid() && View() == OnData(old(View()), id, data)
    {
      if id !in connections {
        return;
      }
      hide Given;
      connections[id].Receive(data);
      conns := conns[id := connections[id].View()];
    }

    method CloseConnection(id: Uuid)
      requires Valid()
      modifies this`connections, this`conns, this`retired
      ensures Valid() && View() == OnClose(old(View()), id)
      ensures connections.Values <= old(connections.Values)
      ensures id in old(connections) ==> Late(old(connections[id]))
    {
      if id !in connections {
        return;
      }
      retired := retired[id := conns[id]];
      connections, conns := connections - {id}, conns - {id};
    }

    /** The handler of a finished connect, which holds its connection whether or not the table does. */
    method Connected(conn: TCPConnection)
      requires Valid() && (Current(conn) || Late(conn))
      modifies this`conns, this`retired, conn
      ensures Valid() && connections == old(connections)
      ensures View() == if old(Current(conn)) then OnConnected(old(View()), conn.connectionId)
                        else OnLateConnected(old(View()), conn.connectionId)
    {
      hide Flushed;
      conn.FlushPending();
      ghost var id := conn.connectionId;
      if Current(conn) {
        conns := conns[id := conn.View()];
      } else {
        retired := retired[id := conn.View()];
      }
    }

    method ConnectFailed(id: Uuid)
      requires Valid()
      modifies this`sent
      ensures Valid() && View() == OnConnectFailed(old(View()), id)
    {
      var frame := AgentBuildClose(machine, id, 1);
      sent := sent + [frame];
    }

    method LocalData(id: Uuid, data: seq<byte>)
      requires Valid() && id in connections
      modifies this`sent, this`conns, connections[id]
      ensures Valid() && View() == OnLocalData(old(View()), id, data)
    {
      hide EncodeData;
      var n := connections[id].NextSequence();
      conns := conns[id := connections[id].View()];
      var frame := AgentBuildData(machine, id, data, n);
      sent := sent + [frame];
    }

    method LocalClosed(id: Uuid)
      requires Valid()
      modifies this
      ensures Valid() && View() == OnLocalClosed(old(View()), id)
    {
      var frame := AgentBuildClose(machine, id, 0);
      sent := sent + [frame];
      CloseConnection(id);
    }

    /** Dispatch of one complete frame. */
    method HandleTcpFrame(frame: seq<byte>)
      requires Valid()
      modifies this, connections.Values
      ensures Valid() && View() == HandleFrame(old(View()), frame)
      ensures fresh(connections.Values - old(connections.Values))
    {
      if |frame| < 17 {
        return;
      }
      var id: Uuid := frame[1..17];
      if frame[0] == TCP_OPEN {
        if |frame| >= 19 {
          HandleTcpOpen(id, FromBe16(frame[17..19]));
        }
      } else if frame[0] == TCP_DATA {
        var payload := InlineData(frame);
        if payload.Payload? {
          HandleTcpData(id, payload.bytes);
        }
      } else if frame[0] == TCP_CLOSE {
        CloseConnection(id);
      } else if frame[0] == TCP_ERROR {
        if |frame| >= 21 {
          CloseConnection(id);
        }
      }
    }

    /** The scanning loop: every complete frame at the front of the buffer is handled, and the number
        of bytes they take is returned. */
    method ProcessTcpFrames(data: seq<byte>) returns (consumed: nat)
      requires Valid()
      modifies this, connections.Values
      ensures Valid() && consumed == Scan(data).consumed
      ensures View() == HandleFrames(old(View()), Scan(data).frames)
      ensures fresh(connections.Values - old(connections.Values))
    {
      hide HandleFrame;
      consumed := 0;
      ghost var done: seq<seq<byte>> := [];
      ScanStarts(data);
      while consumed < |data|
        invariant Valid() && ScannedUpTo(data, consumed, done)
        invariant View() == HandleFrames(old(View()), done)
        invariant fresh(connections.Values - old(connections.Values))
        decreases |data| - consumed
      {
        var current := data[consumed..];
        if !IsTcpFrame(current) {
          break;
        }
        var size := FrameSize(current);
        if size == 0 || |current| < size {
          break;
        }
        ScanAdvances(data, consumed, done);
        HandleFramesAppend(old(View()), done, current[..size]);
        HandleTcpFrame(current[..size]);
        done := done + [current[..size]];
        consumed := consumed + size;
      }
      ScanEnds(data, consumed, done);
    }
  }
}
