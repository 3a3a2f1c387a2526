/** Data gets through: when everything on the wire can reach the agent, and what happens then. */
module TunnelProgress {
  import opened Bytes
  import opened Sequences
  import opened FrameScanner
  import opened Streams
  import opened TcpProtocol
  import opened Tunnel
  import opened TunnelInvariant
  import opened TunnelTheorems

  /** The bytes that the agent has not read. */
  function Ahead(w: World): seq<byte>
    requires w.arrived <= |w.server.wire|
  {
    w.server.wire[w.arrived..]
  }

  /** Reads that fit the agent's buffer. */
  predicate BufferedReads(drain: seq<Step>) {
    forall i :: 0 <= i < |drain| ==> drain[i].AgentRead? && drain[i].count <= 8192
  }

  predicate Fit(fs: seq<FrameBytes>) {
    forall i :: 0 <= i < |fs| ==> |fs[i]| <= 8192
  }

  /** Every read so far has ended on a frame boundary, and there is nothing left to read. */
  predicate Drained(w: World) {
    w.agentFramed && w.arrived == |w.server.wire|
  }

  /** Reads that bring everything on the wire to the agent. */
  predicate Drains(steps: seq<Step>, drain: seq<Step>, o: ByteOrder) {
    BufferedReads(drain) && Drained(Run(steps + drain, o))
  }

  lemma ReadEffect(w: World, count: nat, o: ByteOrder)
    requires w.arrived + count <= |w.server.wire|
    ensures var step, chunk := AgentRead(count), w.server.wire[w.arrived..w.arrived + count];
            && Enabled(w, step)
            && Next(w, step, o).server == w.server && Next(w, step, o).logs == w.logs
            && Next(w, step, o).arrived == w.arrived + count
            && (Next(w, step, o).agentFramed <==> w.agentFramed && Framed(chunk))
  {
    hide Framed, Frames;
  }

  /** A whole read splits what is ahead. */
  lemma ChunkSplits(b: seq<byte>, n: nat)
    requires n <= |b| && Framed(b[..n])
    ensures Frames(b) == Frames(b[..n]) + Frames(b[n..]) && (Framed(b) <==> Framed(b[n..]))
  {
    assert b == b[..n] + b[n..];
    FramedConcat(b[..n], b[n..]);
  }

  lemma FirstFrame(b: seq<byte>)
    requires Framed(b) && b != []
    ensures Frames(b) != [] && |Frames(b)[0]| <= |b| && Framed(b[..|Frames(b)[0]|])
    ensures Frames(b)[1..] == Frames(b[|Frames(b)[0]|..]) && Framed(b[|Frames(b)[0]|..])
  {
    var n := FrameSize(b);
    ScanUnfolds(b, n);
    HeadIsExact(b);
    ExactIsOneFrame(b[..n]);
    ChunkSplits(b, n);
  }

  lemma HeadIsExact(b: seq<byte>)
    requires Complete(b)
    ensures Exact(b[..FrameSize(b)])
  {
    hide FromBe16, FromBe32;
    var n := FrameSize(b);
    if n >= 25 { assert b[..n][21..25] == b[21..25]; }
    if n >= 21 { assert b[..n][19..21] == b[19..21]; }
  }

  /** One read per frame, if each fits. */
  lemma {:induction false} OneReadForEach(steps: seq<Step>, o: ByteOrder) returns (drain: seq<Step>)
    requires var w := Run(steps, o); w.agentFramed && w.arrived <= |w.server.wire| && Fit(Frames(Ahead(w)))
    ensures Drains(steps, drain, o)
    decreases |Run(steps, o).server.wire| - Run(steps, o).arrived
  {
    hide Scan, Next, Enabled, Inv, Run;
    var w := Run(steps, o);
    RunKeeps(steps, o);
    ArrivedIsPrefix(w) by { InvIsWired(w); }
    if Ahead(w) == [] {
      drain := [];
      Whole(steps);
    } else {
      FirstFrame(Ahead(w));
      var n := |Frames(Ahead(w))[0]|;
      var read := AgentRead(n);
      assert w.server.wire[w.arrived..w.arrived + n] == Ahead(w)[..n];
      ReadEffect(w, n, o);
      RunStep(steps, read, o);
      SliceAgain(w.server.wire, w.arrived, n);
      var rest := OneReadForEach(steps + [read], o);
      drain := [read] + rest;
      Associative(steps, [read], rest);
    }
  }

  lemma {:induction false} DrainedFramesFit(steps: seq<Step>, drain: seq<Step>, o: ByteOrder)
    requires Drains(steps, drain, o)
    ensures var w := Run(steps, o); w.agentFramed && w.arrived <= |w.server.wire| && Fit(Frames(Ahead(w)))
    decreases |drain|
  {
    hide Scan, Next, Enabled, Inv, Run, Frames, Framed;
    var w := Run(steps, o);
    RunKeeps(steps, o);
    InvIsWired(w);
    if drain == [] {
      Whole(steps);
      assert Ahead(w) == [];
      NothingAhead();
    } else {
      var read, rest := drain[0], drain[1..];
      assert drain == [read] + rest;
      Associative(steps, [read], rest);
      DrainedFramesFit(steps + [read], rest, o);
      RunStep(steps, read, o);
      if Enabled(w, read) {
        ReadFits(w, read.count, o);
      }
    }
  }

  lemma NothingAhead()
    ensures Frames([]) == []
  {
  }

  lemma ReadFits(w: World, count: nat, o: ByteOrder)
    requires Enabled(w, AgentRead(count)) && count <= 8192
    requires var w' := Next(w, AgentRead(count), o); w'.agentFramed && Fit(Frames(Ahead(w')))
    ensures w.agentFramed && Fit(Frames(Ahead(w)))
  {
    hide Scan, Framed;
    ReadEffect(w, count, o);
    var b := Ahead(w);
    assert b[..count] == w.server.wire[w.arrived..w.arrived + count];
    SliceAgain(w.server.wire, w.arrived, count);
    ChunkSplits(b, count);
    FramesFitTheirRead(b[..count]);
    var head, tail := Frames(b[..count]), Frames(b[count..]);
    forall i | 0 <= i < |head + tail| ensures |(head + tail)[i]| <= 8192 {
      if i < |head| { assert head[i] in head; }
    }
  }

  /** As long as every read has ended on a frame boundary, the agent can still read all of the wire that
      way exactly if each frame ahead of it fits its buffer. */
  lemma DrainableExactlyWhenFramesFit(steps: seq<Step>, o: ByteOrder)
    requires Run(steps, o).agentFramed
    ensures var w := Run(steps, o);
            && w.arrived <= |w.server.wire|
            && ((exists drain: seq<Step> :: Drains(steps, drain, o)) <==> Fit(Frames(Ahead(w))))
  {
    hide Run, Drains, Fit, Frames, Inv;
    var w := Run(steps, o);
    RunKeeps(steps, o);
    InvIsWired(w);
    if drain: seq<Step> :| Drains(steps, drain, o) {
      DrainedFramesFit(steps, drain, o);
    }
    if Fit(Frames(Ahead(w))) {
      var drain := OneReadForEach(steps, o);
    }
  }

  /** Then everything is through: while the link is up, a connection that has taken data is known to
      the agent, its socket has been given or will be given all of it in order, and once its local
      connect has finished nothing is missing. */
  lemma DrainedIsComplete(steps: seq<Step>, o: ByteOrder, id: Uuid)
    ensures var w, w' := Run(steps, o), Run(steps + [LocalConnected(id)], o);
            Drained(w) && w.server.linkUp && id in w.logs ==>
              && (w.logs[id].accepted != [] ==> id in w.agent.conns || id in w.agent.retired)
              && (id in w.agent.conns ==>
                    && w.agent.conns[id].issued + Concat(w.agent.conns[id].pending) == w.logs[id].accepted
                    && id in w'.agent.conns && w'.agent.conns[id].issued == w.logs[id].accepted)
  {
    hide Run, Enabled, Next;
    var w := Run(steps, o);
    RunKeeps(steps, o);
    if Drained(w) && w.server.linkUp && id in w.logs {
      assert Good(w, id);
      Whole(w.server.wire);
      RunStep(steps, LocalConnected(id), o);
      if id in w.agent.conns { ConnectGivesAll(w, id, o); }
    }
  }

  lemma ConnectGivesAll(w: World, id: Uuid, o: ByteOrder)
    requires id in w.agent.conns && (w.agent.conns[id].connected ==> w.agent.conns[id].pending == [])
    ensures var step, c := LocalConnected(id), w.agent.conns[id];
            var w' := if Enabled(w, step) then Next(w, step, o) else w;
            id in w'.agent.conns && w'.agent.conns[id].issued == c.issued + Concat(c.pending)
  {
    Whole(w.agent.conns[id].issued);
    assert Concat<byte>([]) == [];
  }
}
