/** Requests waiting at the server for their agent: one callback each, answered by a stream of header
    and data events, by a timeout, or by the connection's end. */
module AgentRequests {
  import opened HttpText
  import opened HttpTranslation

  /** One invocation of a callback. */
  datatype Call = Call(id: string, callback: nat, response: string, error: bool)

  datatype State = State(
    connected: bool,
    pending: map<string, nat>,
    streams: map<int, string>,
    heads: map<int, string>,
    bodies: map<int, string>,
    calls: seq<Call>)

  const START := State(true, map[], map[], map[], map[], [])

  datatype Step =
    | Submit(id: string, callback: nat, stream: int, accepted: bool)
    | Header(stream: int, pair: Pair)
    | Data(stream: int, chunk: string)
    | EndOfStream(stream: int)
    | Timeout(id: string, stream: int)
    | Close(order: seq<string>)

  function At(texts: map<int, string>, stream: int): string {
    if stream in texts then texts[stream] else ""
  }

  predicate IsPseudo(name: string) {
    name != "" && name[0] == ':'
  }

  /** The status line comes first or not at all; other pseudo-headers are skipped. */
  function HeadsAfter(heads: map<int, string>, stream: int, p: Pair): map<int, string> {
    if p.name == ":status" then
      if stream in heads then heads else heads[stream := "HTTP/1.1 " + p.value + " OK\r\n"]
    else if IsPseudo(p.name) then heads
    else heads[stream := At(heads, stream) + HeaderLine(p.name, p.value)]
  }

  function Response(head: string, body: string): string {
    head + (if head == "" then "" else "\r\n") + body
  }

  function AfterEnd(s: State, stream: int): State {
    if stream !in s.streams || s.streams[stream] !in s.pending then s
    else
      var id := s.streams[stream];
      var call := Call(id, s.pending[id], Response(At(s.heads, stream), At(s.bodies, stream)), false);
      State(s.connected, s.pending - {id}, s.streams - {stream},
            s.heads - {stream}, s.bodies - {stream}, s.calls + [call])
  }

  function AfterSubmit(s: State, id: string, callback: nat, stream: int, accepted: bool): State {
    if !s.connected || !accepted then s.(calls := s.calls + [Call(id, callback, "", true)])
    else s.(pending := s.pending[id := callback], streams := s.streams[stream := id])
  }

  function AfterTimeout(s: State, id: string, stream: int): State {
    if id !in s.pending then s
    else s.(pending := s.pending - {id}, streams := s.streams - {stream},
            calls := s.calls + [Call(id, s.pending[id], "", true)])
  }

  /** Every pending callback is told of the failure, in the order the table is visited. */
  function Failed(pending: map<string, nat>, order: seq<string>): seq<Call>
    requires forall id :: id in order ==> id in pending
  {
    if order == [] then []
    else
      var id := order[|order| - 1];
      Failed(pending, order[..|order| - 1]) + [Call(id, pending[id], "", true)]
  }

  ghost predicate Enabled(s: State, step: Step) {
    step.Close? && s.connected ==> Enumerates(step.order, s.pending.Keys)
  }

  ghost function After(s: State, step: Step): State
    requires Enabled(s, step)
  {
    match step
    case Submit(id, callback, stream, accepted) => AfterSubmit(s, id, callback, stream, accepted)
    case Header(stream, pair) => s.(heads := HeadsAfter(s.heads, stream, pair))
    case Data(stream, chunk) => s.(bodies := s.bodies[stream := At(s.bodies, stream) + chunk])
    case EndOfStream(stream) => AfterEnd(s, stream)
    case Timeout(id, stream) => AfterTimeout(s, id, stream)
    case Close(order) =>
      if !s.connected then s
      else s.(connected := false, pending := map[], calls := s.calls + Failed(s.pending, order))
  }

  class AgentConnection {
    var connected: bool
    var pendingRequests: map<string, nat>
    var streamToRequest: map<int, string>
    var streamHeaders: map<int, string>
    var streamBodies: map<int, string>
    var calls: seq<Call>

    function View(): State
      reads this
    {
      State(connected, pendingRequests, streamToRequest, streamHeaders, streamBodies, calls)
    }

    constructor ()
      ensures View() == START
    {
      connected, calls := true, [];
      pendingRequests, streamToRequest, streamHeaders, streamBodies := map[], map[], map[], map[];
    }

    /** `accepted` and `stream` are the HTTP/2 library's answer to the submitted headers. */
    method SendHttpRequest(id: string, callback: nat, stream: int, accepted: bool)
      modifies this
      ensures View() == After(old(View()), Submit(id, callback, stream, accepted))
    {
      if !connected {
        calls := calls + [Call(id, callback, "", true)];
        return;
      }
      if !accepted {
        calls := calls + [Call(id, callback, "", true)];
        return;
      }
      pendingRequests := pendingRequests[id := callback];
      streamToRequest := streamToRequest[stream := id];
    }

    method OnHeader(stream: int, name: string, value: string)
      modifies this
      ensures View() == After(old(View()), Header(stream, Pair(name, value)))
    {
      if name == ":status" {
        if stream !in streamHeaders {
          streamHeaders := streamHeaders[stream := "HTTP/1.1 " + value + " OK\r\n"];
        }
      } else if name == "" || name[0] != ':' {
        var head := if stream in streamHeaders then streamHeaders[stream] else "";
        streamHeaders := streamHeaders[stream := head + (name + ": " + value + "\r\n")];
      }
    }

    method OnDataChunk(stream: int, chunk: string)
      modifies this
      ensures View() == After(old(View()), Data(stream, chunk))
    {
      var body := if stream in streamBodies then streamBodies[stream] else "";
      streamBodies := streamBodies[stream := body + chunk];
    }

    method CompleteRequest(stream: int)
      modifies this
      ensures View() == After(old(View()), EndOfStream(stream))
    {
      if stream !in streamToRequest {
        return;
      }
      var id := streamToRequest[stream];
      if id !in pendingRequests {
        return;
      }
      var response := "";
      if stream in streamHeaders {
        response := streamHeaders[stream];
      }
      if response != "" {
        response := response + "\r\n";
      }
      if stream in streamBodies {
        response := response + streamBodies[stream];
      }
      assert response == Response(At(streamHeaders, stream), At(streamBodies, stream));
      calls := calls + [Call(id, pendingRequests[id], response, false)];
      pendingRequests := pendingRequests - {id};
      streamToRequest := streamToRequest - {stream};
      streamHeaders := streamHeaders - {stream};
      streamBodies := streamBodies - {stream};
    }

    method OnTimeout(id: string, stream: int)
      modifies this
      ensures View() == After(old(View()), Timeout(id, stream))
    {
      if id in pendingRequests {
        calls := calls + [Call(id, pendingRequests[id], "", true)];
        pendingRequests := pendingRequests - {id};
        streamToRequest := streamToRequest - {stream};
      }
    }

    method HandleDisconnect() returns (ghost order: seq<string>)
      modifies this`calls, this`pendingRequests
      ensures Enumerates(order, old(pendingRequests).Keys) && pendingRequests == map[]
      ensures calls == old(calls) + Failed(old(pendingRequests), order)
    {
      var left := pendingRequests.Keys;
      order := [];
      while left != {}
        invariant left <= pendingRequests.Keys && Enumerates(order, pendingRequests.Keys - left)
        invariant calls == old(calls) + Failed(pendingRequests, order)
        invariant pendingRequests == old(pendingRequests)
        decreases |left|
      {
        var id :| id in left;
        calls := calls + [Call(id, pendingRequests[id], "", true)];
        assert (order + [id])[..|order|] == order;
        left, order := left - {id}, order + [id];
      }
      pendingRequests := map[];
    }

    method CloseConnection() returns (ghost order: seq<string>)
      modifies this
      ensures Enabled(old(View()), Close(order)) && View() == After(old(View()), Close(order))
    {
      order := [];
      if !connected {
        return;
      }
      connected := false;
      order := HandleDisconnect();
    }
  }

  // ----- runs -----

  ghost predicate Valid(steps: seq<Step>)
    decreases |steps|, 0
  {
    steps == [] || (Valid(steps[..|steps| - 1]) && Enabled(Run(steps[..|steps| - 1]), steps[|steps| - 1]))
  }

  ghost function Run(steps: seq<Step>): State
    requires Valid(steps)
    decreases |steps|, 1
  {
    if steps == [] then START else After(Run(steps[..|steps| - 1]), steps[|steps| - 1])
  }

  // ----- each callback once -----

  function Times(calls: seq<Call>, callback: nat): nat {
    if calls == [] then 0
    else Times(calls[..|calls| - 1], callback) + (if calls[|calls| - 1].callback == callback then 1 else 0)
  }

  ghost predicate Waits(s: State, callback: nat) {
    exists id :: id in s.pending && s.pending[id] == callback
  }

  function Submitted(steps: seq<Step>): set<nat> {
    if steps == [] then {}
    else
      var before, step := Submitted(steps[..|steps| - 1]), steps[|steps| - 1];
      if step.Submit? then before + {step.callback} else before
  }

  /** Every submitted request brings a callback of its own. */
  predicate OwnCallbacks(steps: seq<Step>) {
    steps == [] ||
    (var front, step := steps[..|steps| - 1], steps[|steps| - 1];
     OwnCallbacks(front) && (step.Submit? ==> step.callback !in Submitted(front)))
  }

  lemma TimesAppend(calls: seq<Call>, call: Call, callback: nat)
    ensures Times(calls + [call], callback) == Times(calls, callback) + (if call.callback == callback then 1 else 0)
  {
    assert (calls + [call])[..|calls + [call]| - 1] == calls;
  }

  lemma {:induction false} TimesConcat(a: seq<Call>, b: seq<Call>, callback: nat)
    ensures Times(a + b, callback) == Times(a, callback) + Times(b, callback)
    decreases |b|
  {
    if b == [] {
      assert a + b == a;
    } else {
      TimesConcat(a, b[..|b| - 1], callback);
      assert (a + b)[..|a + b| - 1] == a + b[..|b| - 1];
    }
  }

  /** No two requests wait with the same callback. */
  ghost predicate Apart(pending: map<string, nat>) {
    forall id, other :: id in pending && other in pending && pending[id] == pending[other] ==> id == other
  }

  lemma {:induction false} FailedTimes(pending: map<string, nat>, order: seq<string>, callback: nat)
    requires Apart(pending) && forall id :: id in order ==> id in pending
    requires forall i, j :: 0 <= i < j < |order| ==> order[i] != order[j]
    ensures Times(Failed(pending, order), callback)
            == if exists id :: id in order && pending[id] == callback then 1 else 0
    decreases |order|
  {
    if order != [] {
      var front, id := order[..|order| - 1], order[|order| - 1];
      assert order == front + [id];
      FailedTimes(pending, front, callback);
      TimesAppend(Failed(pending, front), Call(id, pending[id], "", true), callback);
      assert forall k :: k in order <==> k in front || k == id;
      assert id !in front;
    }
  }

  ghost predicate Known(s: State, submitted: set<nat>) {
    forall id :: id in s.pending ==> s.pending[id] in submitted
  }

  /** The calls a callback has had and the one it may still wait for. */
  ghost function Owed(s: State, callback: nat): nat {
    Times(s.calls, callback) + (if Waits(s, callback) then 1 else 0)
  }

  /** A request is submitted under the id of one that still waits. */
  predicate Overwrites(s: State, step: Step, callback: nat) {
    && step.Submit? && s.connected && step.accepted
    && step.id in s.pending && s.pending[step.id] == callback
  }

  ghost predicate Lost(steps: seq<Step>, callback: nat)
    requires Valid(steps)
  {
    steps != [] &&
    (var front, step := steps[..|steps| - 1], steps[|steps| - 1];
     Lost(front, callback) || Overwrites(Run(front), step, callback))
  }

  lemma KeepsApart(s: State, step: Step, submitted: set<nat>)
    requires Enabled(s, step) && Apart(s.pending) && Known(s, submitted)
    requires step.Submit? ==> step.callback !in submitted
    ensures Apart(After(s, step).pending)
    ensures Known(After(s, step), if step.Submit? then submitted + {step.callback} else submitted)
  {
    hide Enabled, HeadsAfter, Failed, Response;
  }

  lemma SubmitOwes(s: State, id: string, callback: nat, stream: int, accepted: bool, c: nat)
    requires Apart(s.pending) && !Waits(s, callback)
    ensures var step := Submit(id, callback, stream, accepted);
            Owed(AfterSubmit(s, id, callback, stream, accepted), c)
            == Owed(s, c) + (if c == callback then 1 else 0) - (if Overwrites(s, step, c) then 1 else 0)
  {
    var t := AfterSubmit(s, id, callback, stream, accepted);
    if !s.connected || !accepted {
      TimesAppend(s.calls, Call(id, callback, "", true), c);
      assert Waits(t, c) == Waits(s, c);
    } else {
      assert t.pending[id] == callback;
      assert forall other :: other in s.pending && other != id ==> t.pending[other] == s.pending[other];
      hide Times;
    }
  }

  /** Taking one entry out of the table and calling it leaves what is owed unchanged. */
  lemma CalledOwes(s: State, t: State, id: string, response: string, error: bool, c: nat)
    requires Apart(s.pending) && id in s.pending && t.pending == s.pending - {id}
    requires t.calls == s.calls + [Call(id, s.pending[id], response, error)]
    ensures Owed(t, c) == Owed(s, c)
  {
    TimesAppend(s.calls, Call(id, s.pending[id], response, error), c);
    hide Times;
    if s.pending[id] == c {
      assert Waits(s, c) && !Waits(t, c);
    } else {
      assert forall other :: other in s.pending && s.pending[other] == c ==> other in t.pending;
    }
  }

  lemma ClosedOwes(s: State, order: seq<string>, c: nat)
    requires Apart(s.pending) && s.connected && Enumerates(order, s.pending.Keys)
    ensures Owed(After(s, Close(order)), c) == Owed(s, c)
  {
    FailedTimes(s.pending, order, c);
    TimesConcat(s.calls, Failed(s.pending, order), c);
    hide Times, Failed;
    assert !Waits(After(s, Close(order)), c);
  }

  /** One step adds the submitted callback to what is owed, drops the one it overwrites, and keeps all
      else. */
  lemma StepOwes(s: State, step: Step, c: nat)
    requires Enabled(s, step) && Apart(s.pending) && (step.Submit? ==> !Waits(s, step.callback))
    ensures Owed(After(s, step), c)
            == Owed(s, c) + (if step.Submit? && step.callback == c then 1 else 0)
               - (if Overwrites(s, step, c) then 1 else 0)
  {
    match step
    case Submit(id, callback, stream, accepted) =>
      SubmitOwes(s, id, callback, stream, accepted, c);
    case EndOfStream(stream) =>
      if stream in s.streams && s.streams[stream] in s.pending {
        var id := s.streams[stream];
        CalledOwes(s, After(s, step), id, Response(At(s.heads, stream), At(s.bodies, stream)), false, c);
      }
    case Timeout(id, stream) =>
      if id in s.pending { CalledOwes(s, After(s, step), id, "", true, c); }
    case Close(order) =>
      if s.connected { ClosedOwes(s, order, c); }
    case _ =>
      assert After(s, step).calls == s.calls && After(s, step).pending == s.pending;
  }

  lemma {:induction false} WaitingIsKnown(steps: seq<Step>)
    requires Valid(steps) && OwnCallbacks(steps)
    ensures Apart(Run(steps).pending) && Known(Run(steps), Submitted(steps))
  {
    hide Apart, Known, After, Enabled;
    if steps == [] {
      NoneApart();
    } else {
      var front, step := steps[..|steps| - 1], steps[|steps| - 1];
      WaitingIsKnown(front);
      KeepsApart(Run(front), step, Submitted(front));
    }
  }

  lemma NoneApart()
    ensures Apart(START.pending) && Known(START, {})
  {
  }

  /** Over every run in which each request brings a callback of its own: a callback has been called
      once, or waits and has not been called, if and only if it was submitted and no later request
      was submitted under its id while it waited. Otherwise it has never been called. */
  lemma {:induction false} CallbackLedger(steps: seq<Step>, c: nat)
    requires Valid(steps) && OwnCallbacks(steps)
    ensures Owed(Run(steps), c) == if c in Submitted(steps) && !Lost(steps, c) then 1 else 0
    ensures Lost(steps, c) ==> c in Submitted(steps)
  {
    hide After, Enabled, Apart;
    if steps != [] {
      hide Times;
      var front, step := steps[..|steps| - 1], steps[|steps| - 1];
      CallbackLedger(front, c);
      WaitingIsKnown(front);
      StepOwes(Run(front), step, c);
      assert Overwrites(Run(front), step, c) ==> Waits(Run(front), c);
    }
  }

  /** Once the connection is closed nothing waits, and each submitted callback that no later request
      displaced has been called exactly once. */
  lemma ClosedAnswersAll(steps: seq<Step>, c: nat)
    requires Valid(steps) && OwnCallbacks(steps) && !Run(steps).connected
    ensures Run(steps).pending == map[]
    ensures Times(Run(steps).calls, c) == if c in Submitted(steps) && !Lost(steps, c) then 1 else 0
  {
    ClosedIsEmpty(steps);
    CallbackLedger(steps, c);
    hide Run, Times, Submitted, Lost;
  }

  lemma {:induction false} ClosedIsEmpty(steps: seq<Step>)
    requires Valid(steps)
    ensures !Run(steps).connected ==> Run(steps).pending == map[]
  {
    hide HeadsAfter, Failed, Response, Enabled;
    if steps != [] { ClosedIsEmpty(steps[..|steps| - 1]); }
  }
}
