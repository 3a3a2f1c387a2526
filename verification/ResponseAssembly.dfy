/** Responses of many streams, interleaved: each is assembled from its own stream's events alone. */
module ResponseAssembly {
  import opened Wrappers
  import opened Sequences
  import opened HttpText
  import opened HttpTranslation
  import opened AgentRequests

  function Get<K, V>(m: map<K, V>, k: K): Option<V> {
    if k in m then Some(m[k]) else None
  }

  /** The calls made for one request id. */
  function For(calls: seq<Call>, id: string): seq<Call> {
    if calls == [] then []
    else
      var before, call := For(calls[..|calls| - 1], id), calls[|calls| - 1];
      if call.id == id then before + [call] else before
  }

  /** What the tables hold for one request and its stream. */
  datatype Slice = Slice(connected: bool, callback: Option<nat>, request: Option<string>,
                         head: Option<string>, body: Option<string>, calls: seq<Call>)

  function SliceOf(s: State, id: string, stream: int): Slice {
    Slice(s.connected, Get(s.pending, id), Get(s.streams, stream),
          Get(s.heads, stream), Get(s.bodies, stream), For(s.calls, id))
  }

  predicate Concerns(step: Step, id: string, stream: int) {
    match step
    case Submit(k, _, _, _) => k == id
    case Timeout(k, _) => k == id
    case Header(k, _) => k == stream
    case Data(k, _) => k == stream
    case EndOfStream(k) => k == stream
    case Close(_) => true
  }

  /** A close visits only the request itself when nothing else is waiting. */
  function Alone(step: Step, id: string): Step {
    if step.Close? then Close(if id in step.order then [id] else []) else step
  }

  function Own(steps: seq<Step>, id: string, stream: int): seq<Step> {
    if steps == [] then []
    else
      var before, step := Own(steps[..|steps| - 1], id, stream), steps[|steps| - 1];
      if Concerns(step, id, stream) then before + [Alone(step, id)] else before
  }

  /** The request id and the stream belong to each other: no other request uses either. */
  predicate Pairs(step: Step, id: string, stream: int) {
    step.Submit? || step.Timeout? ==> (step.id == id <==> step.stream == stream)
  }

  predicate Paired(steps: seq<Step>, id: string, stream: int) {
    forall i :: 0 <= i < |steps| ==> Pairs(steps[i], id, stream)
  }

  ghost predicate Isolated(s: State, id: string, stream: int) {
    forall k :: k in s.streams ==> (k == stream <==> s.streams[k] == id)
  }

  lemma ForAppend(calls: seq<Call>, call: Call, id: string)
    ensures For(calls + [call], id) == For(calls, id) + (if call.id == id then [call] else [])
  {
    assert (calls + [call])[..|calls + [call]| - 1] == calls;
  }

  lemma {:induction false} ForConcat(a: seq<Call>, b: seq<Call>, id: string)
    ensures For(a + b, id) == For(a, id) + For(b, id)
    decreases |b|
  {
    if b == [] {
      assert a + b == a;
    } else {
      ForConcat(a, b[..|b| - 1], id);
      assert (a + b)[..|a + b| - 1] == a + b[..|b| - 1];
    }
  }

  lemma {:induction false} ForFailed(pending: map<string, nat>, order: seq<string>, id: string)
    requires forall k :: k in order ==> k in pending
    requires forall i, j :: 0 <= i < j < |order| ==> order[i] != order[j]
    ensures For(Failed(pending, order), id) == if id in order then [Call(id, pending[id], "", true)] else []
    decreases |order|
  {
    if order != [] {
      var front, last := order[..|order| - 1], order[|order| - 1];
      assert order == front + [last];
      ForFailed(pending, front, id);
      ForAppend(Failed(pending, front), Call(last, pending[last], "", true), id);
      assert id in order <==> id in front || id == last;
      assert last !in front;
    }
  }

  lemma KeepsIsolated(s: State, step: Step, id: string, stream: int)
    requires Enabled(s, step) && Isolated(s, id, stream) && Pairs(step, id, stream)
    ensures Isolated(After(s, step), id, stream)
  {
    hide HeadsAfter, Enabled, Failed, Response;
  }

  /** A step of another request leaves the slice alone. */
  lemma OtherStep(s: State, step: Step, id: string, stream: int)
    requires Enabled(s, step) && Isolated(s, id, stream) && Pairs(step, id, stream)
    requires !Concerns(step, id, stream)
    ensures SliceOf(After(s, step), id, stream) == SliceOf(s, id, stream)
  {
    hide HeadsAfter, Response, For, Enabled;
    match step
    case Header(k, pair) => HeadsApart(s.heads, k, pair, stream);
    case Submit(k, callback, _, _) => ForAppend(s.calls, Call(k, callback, "", true), id);
    case Timeout(k, _) =>
      if k in s.pending { ForAppend(s.calls, Call(k, s.pending[k], "", true), id); }
    case EndOfStream(k) =>
      if k in s.streams && s.streams[k] in s.pending {
        var other := s.streams[k];
        ForAppend(s.calls, Call(other, s.pending[other], Response(At(s.heads, k), At(s.bodies, k)), false), id);
      }
    case _ =>
  }

  /** Nothing but the request waits. */
  ghost predicate Only(s: State, id: string) {
    forall k :: k in s.pending ==> k == id
  }

  lemma CloseEnabled(a: State, b: State, order: seq<string>, id: string)
    requires Enabled(a, Close(order)) && Only(b, id)
    requires a.connected == b.connected && (id in a.pending <==> id in b.pending)
    ensures Enabled(b, Alone(Close(order), id))
    ensures a.connected ==> (id in order <==> id in a.pending)
  {
  }

  lemma CloseAlike(a: State, b: State, order: seq<string>, id: string, stream: int)
    requires Enabled(a, Close(order)) && Only(b, id)
    requires SliceOf(a, id, stream) == SliceOf(b, id, stream)
    ensures Enabled(b, Alone(Close(order), id))
    ensures SliceOf(After(a, Close(order)), id, stream) == SliceOf(After(b, Alone(Close(order), id)), id, stream)
  {
    hide For, Failed, Only, AfterEnd, AfterSubmit, AfterTimeout, HeadsAfter;
    assert id in a.pending <==> id in b.pending;
    CloseEnabled(a, b, order, id);
    if a.connected {
      var own := if id in order then [id] else [];
      ForFailed(a.pending, order, id);
      ForFailed(b.pending, own, id);
      ForConcat(a.calls, Failed(a.pending, order), id);
      ForConcat(b.calls, Failed(b.pending, own), id);
    }
  }

  lemma SubmitAlike(a: State, b: State, id: string, callback: nat, stream: int, accepted: bool)
    requires SliceOf(a, id, stream) == SliceOf(b, id, stream)
    ensures SliceOf(AfterSubmit(a, id, callback, stream, accepted), id, stream)
            == SliceOf(AfterSubmit(b, id, callback, stream, accepted), id, stream)
  {
    hide For;
    ForAppend(a.calls, Call(id, callback, "", true), id);
    ForAppend(b.calls, Call(id, callback, "", true), id);
  }

  lemma TimeoutAlike(a: State, b: State, id: string, stream: int)
    requires SliceOf(a, id, stream) == SliceOf(b, id, stream)
    ensures SliceOf(AfterTimeout(a, id, stream), id, stream) == SliceOf(AfterTimeout(b, id, stream), id, stream)
  {
    hide For;
    assert id in a.pending <==> id in b.pending;
    if id in a.pending {
      ForAppend(a.calls, Call(id, a.pending[id], "", true), id);
      ForAppend(b.calls, Call(id, b.pending[id], "", true), id);
    }
  }

  lemma OwnStep(a: State, b: State, step: Step, id: string, stream: int)
    requires Enabled(a, step) && Isolated(a, id, stream) && Isolated(b, id, stream) && Pairs(step, id, stream)
    requires Concerns(step, id, stream) && !step.Close?
    requires SliceOf(a, id, stream) == SliceOf(b, id, stream)
    ensures SliceOf(After(a, step), id, stream) == SliceOf(After(b, step), id, stream)
  {
    hide HeadsAfter, Response, For, Enabled, AfterSubmit, AfterTimeout, AfterEnd, Isolated;
    match step
    case Submit(_, callback, _, accepted) => SubmitAlike(a, b, id, callback, stream, accepted);
    case Timeout(_, _) => TimeoutAlike(a, b, id, stream);
    case EndOfStream(_) => EndAlike(a, b, id, stream);
    case Header(_, pair) => HeadsAlike(a.heads, b.heads, stream, pair);
    case Data(_, _) => TextsAlike(a, b, stream);
  }

  lemma HeadsAlike(m: map<int, string>, n: map<int, string>, stream: int, p: Pair)
    requires Get(m, stream) == Get(n, stream)
    ensures Get(HeadsAfter(m, stream, p), stream) == Get(HeadsAfter(n, stream, p), stream)
  {
    hide IsPseudo, HeaderLine;
    assert stream in m <==> stream in n;
  }

  lemma HeadsApart(m: map<int, string>, other: int, p: Pair, stream: int)
    requires other != stream
    ensures Get(HeadsAfter(m, other, p), stream) == Get(m, stream)
  {
    hide IsPseudo, HeaderLine, At;
  }

  lemma TextsAlike(a: State, b: State, stream: int)
    requires Get(a.heads, stream) == Get(b.heads, stream) && Get(a.bodies, stream) == Get(b.bodies, stream)
    ensures At(a.heads, stream) == At(b.heads, stream) && At(a.bodies, stream) == At(b.bodies, stream)
    ensures (stream in a.heads) == (stream in b.heads)
  {
  }

  lemma EndAlike(a: State, b: State, id: string, stream: int)
    requires Isolated(a, id, stream) && Isolated(b, id, stream)
    requires SliceOf(a, id, stream) == SliceOf(b, id, stream)
    ensures SliceOf(AfterEnd(a, stream), id, stream) == SliceOf(AfterEnd(b, stream), id, stream)
  {
    hide Response, For;
    TextsAlike(a, b, stream);
    assert stream in a.streams <==> stream in b.streams;
    assert id in a.pending <==> id in b.pending;
    if stream in a.streams && id in a.pending {
      var call := Call(id, a.pending[id], Response(At(a.heads, stream), At(a.bodies, stream)), false);
      ForAppend(a.calls, call, id);
      ForAppend(b.calls, call, id);
    }
  }

  lemma KeepsOnly(s: State, step: Step, id: string, stream: int)
    requires Enabled(s, step) && Only(s, id) && Concerns(step, id, stream)
    ensures Only(After(s, step), id)
  {
    hide HeadsAfter, Response, Failed, Enabled;
  }

  lemma OwnAppend(steps: seq<Step>, step: Step)
    requires Valid(steps) && Enabled(Run(steps), step)
    ensures Valid(steps + [step]) && Run(steps + [step]) == After(Run(steps), step)
  {
    hide Enabled, After;
    var all := steps + [step];
    assert all[..|all| - 1] == steps;
  }

  /** Over every run in which a request and its stream belong together, what becomes of them is what
      becomes of them when only their own steps happen. */
  lemma {:induction false} StreamStandsAlone(steps: seq<Step>, id: string, stream: int)
    requires Valid(steps) && Paired(steps, id, stream)
    ensures Valid(Own(steps, id, stream))
    ensures SliceOf(Run(steps), id, stream) == SliceOf(Run(Own(steps, id, stream)), id, stream)
    ensures Isolated(Run(steps), id, stream) && Isolated(Run(Own(steps, id, stream)), id, stream)
    ensures Only(Run(Own(steps, id, stream)), id)
  {
    hide After, Enabled, SliceOf, Isolated, Only, Pairs;
    if steps == [] {
      StartIsBare(id, stream);
    } else {
      var front, step := steps[..|steps| - 1], steps[|steps| - 1];
      assert Pairs(step, id, stream);
      StreamStandsAlone(front, id, stream);
      var a, b := Run(front), Run(Own(front, id, stream));
      KeepsIsolated(a, step, id, stream);
      if !Concerns(step, id, stream) {
        OtherStep(a, step, id, stream);
      } else {
        if step.Close? {
          CloseAlike(a, b, step.order, id, stream);
        } else {
          OwnStep(a, b, step, id, stream);
          EnabledUnlessClose(b, step);
        }
        OwnAppend(Own(front, id, stream), Alone(step, id));
        PairsAlone(step, id, stream);
        KeepsIsolated(b, Alone(step, id), id, stream);
        KeepsOnly(b, Alone(step, id), id, stream);
      }
    }
  }

  lemma StartIsBare(id: string, stream: int)
    ensures Isolated(START, id, stream) && Only(START, id)
  {
  }

  lemma EnabledUnlessClose(s: State, step: Step)
    requires !step.Close?
    ensures Enabled(s, step)
  {
  }

  lemma PairsAlone(step: Step, id: string, stream: int)
    requires Pairs(step, id, stream)
    ensures Pairs(Alone(step, id), id, stream)
    ensures Concerns(step, id, stream) ==> Concerns(Alone(step, id), id, stream)
  {
  }

  // ----- what the response is -----

  /** Header and data events of a stream, in any order. */
  predicate Receives(steps: seq<Step>, stream: int) {
    forall i :: 0 <= i < |steps| ==> (steps[i].Header? || steps[i].Data?) && steps[i].stream == stream
  }

  /** The status header and the regular ones; other pseudo-headers do not count. */
  predicate Counts(p: Pair) {
    p.name == ":status" || p.name == "" || p.name[0] != ':'
  }

  function FirstCounted(steps: seq<Step>): Option<Pair> {
    if steps == [] then None
    else
      var before, step := FirstCounted(steps[..|steps| - 1]), steps[|steps| - 1];
      if before.None? && step.Header? && Counts(step.pair) then Some(step.pair) else before
  }

  function StatusLine(first: Option<Pair>): string {
    if first.Some? && first.value.name == ":status" then "HTTP/1.1 " + first.value.value + " OK\r\n" else ""
  }

  /** The regular header lines, in the order received. */
  function Lines(steps: seq<Step>): seq<string> {
    if steps == [] then []
    else
      var before, step := Lines(steps[..|steps| - 1]), steps[|steps| - 1];
      if step.Header? && !IsPseudo(step.pair.name)
      then before + [HeaderLine(step.pair.name, step.pair.value)] else before
  }

  /** The body chunks, in the order received. */
  function Chunks(steps: seq<Step>): seq<string> {
    if steps == [] then []
    else
      var before, step := Chunks(steps[..|steps| - 1]), steps[|steps| - 1];
      if step.Data? then before + [step.chunk] else before
  }

  function HeadText(steps: seq<Step>): string {
    StatusLine(FirstCounted(steps)) + Concat(Lines(steps))
  }

  /** What the tables hold for a stream after events of its own. */
  ghost predicate Holds(s: State, steps: seq<Step>, stream: int) {
    && (stream in s.heads <==> FirstCounted(steps).Some?)
    && At(s.heads, stream) == HeadText(steps)
    && At(s.bodies, stream) == Concat(Chunks(steps))
  }

  lemma RegularCounts(p: Pair)
    ensures Counts(p) <==> p.name == ":status" || !IsPseudo(p.name)
  {
  }

  lemma StatusIsPseudo()
    ensures IsPseudo(":status")
  {
  }

  lemma {:induction false} NoneCountedNoLines(steps: seq<Step>)
    ensures FirstCounted(steps).None? ==> Lines(steps) == []
  {
    StatusIsPseudo();
    hide IsPseudo;
    if steps != [] {
      NoneCountedNoLines(steps[..|steps| - 1]);
      if steps[|steps| - 1].Header? { RegularCounts(steps[|steps| - 1].pair); }
    }
  }

  lemma HeaderEventParts(steps: seq<Step>, stream: int, p: Pair)
    ensures var all := steps + [Header(stream, p)];
            && FirstCounted(all) == (if FirstCounted(steps).None? && Counts(p) then Some(p) else FirstCounted(steps))
            && Lines(all) == Lines(steps) + (if IsPseudo(p.name) then [] else [HeaderLine(p.name, p.value)])
            && Chunks(all) == Chunks(steps)
  {
    hide Counts, IsPseudo, HeaderLine;
    var all := steps + [Header(stream, p)];
    assert all[..|all| - 1] == steps && all[|all| - 1] == Header(stream, p);
  }

  lemma RegularLineText(steps: seq<Step>, stream: int, p: Pair)
    requires !IsPseudo(p.name)
    ensures HeadText(steps + [Header(stream, p)]) == HeadText(steps) + HeaderLine(p.name, p.value)
  {
    hide IsPseudo, HeaderLine, Concat, FirstCounted, Lines;
    HeaderEventParts(steps, stream, p);
    StatusIsPseudo();
    ConcatAppend(Lines(steps), HeaderLine(p.name, p.value));
    Associative(StatusLine(FirstCounted(steps)), Concat(Lines(steps)), HeaderLine(p.name, p.value));
  }

  lemma PseudoText(steps: seq<Step>, stream: int, p: Pair)
    requires IsPseudo(p.name)
    ensures HeadText(steps + [Header(stream, p)])
            == if p.name == ":status" && FirstCounted(steps).None? then "HTTP/1.1 " + p.value + " OK\r\n"
               else HeadText(steps)
  {
    hide IsPseudo, HeaderLine, Concat, FirstCounted, Lines;
    HeaderEventParts(steps, stream, p);
    NoneCountedNoLines(steps);
    Whole(Lines(steps));
    NoStrings();
    Whole("HTTP/1.1 " + p.value + " OK\r\n");
  }

  lemma HoldsAfterHeader(s: State, steps: seq<Step>, stream: int, p: Pair)
    requires Holds(s, steps, stream)
    ensures var all := steps + [Header(stream, p)];
            Holds(s.(heads := HeadsAfter(s.heads, stream, p)), all, stream)
  {
    hide IsPseudo, HeaderLine, Concat, FirstCounted, Lines, Chunks, HeadText;
    StatusIsPseudo();
    RegularCounts(p);
    HeaderEventParts(steps, stream, p);
    if IsPseudo(p.name) {
      PseudoText(steps, stream, p);
    } else {
      RegularLineText(steps, stream, p);
    }
  }

  lemma NoStrings()
    ensures Concat<char>([]) == ""
  {
  }

  lemma HoldsAfterData(s: State, steps: seq<Step>, stream: int, chunk: string)
    requires Holds(s, steps, stream)
    ensures var all := steps + [Data(stream, chunk)];
            Holds(s.(bodies := s.bodies[stream := At(s.bodies, stream) + chunk]), all, stream)
  {
    var all := steps + [Data(stream, chunk)];
    assert all[..|all| - 1] == steps && all[|all| - 1] == Data(stream, chunk);
    ConcatAppend(Chunks(steps), chunk);
    hide Concat;
  }

  /** The state of a request whose stream has received the given events since it was submitted. */
  ghost predicate Receiving(s: State, id: string, callback: nat, steps: seq<Step>, stream: int) {
    && s.connected && s.pending == map[id := callback] && s.streams == map[stream := id] && s.calls == []
    && Holds(s, steps, stream)
  }

  lemma {:induction false} ReceivesAll(id: string, callback: nat, received: seq<Step>, stream: int)
    requires Receives(received, stream)
    ensures var steps := [Submit(id, callback, stream, true)] + received;
            Valid(steps) && Receiving(Run(steps), id, callback, received, stream)
  {
    hide Holds, HeadsAfter;
    var submit := [Submit(id, callback, stream, true)];
    if received == [] {
      SubmitStarts(id, callback, stream);
      assert submit + received == submit;
    } else {
      var front, step := received[..|received| - 1], received[|received| - 1];
      assert received == front + [step];
      assert submit + received == (submit + front) + [step];
      ReceivesAll(id, callback, front, stream);
      OwnAppend(submit + front, step);
      if step.Header? {
        HoldsAfterHeader(Run(submit + front), front, stream, step.pair);
      } else {
        HoldsAfterData(Run(submit + front), front, stream, step.chunk);
      }
    }
  }

  lemma SubmitStarts(id: string, callback: nat, stream: int)
    ensures var steps := [Submit(id, callback, stream, true)];
            Valid(steps) && Receiving(Run(steps), id, callback, [], stream)
  {
    assert [] + [Submit(id, callback, stream, true)] == [Submit(id, callback, stream, true)];
    OwnAppend([], Submit(id, callback, stream, true));
    NoStrings();
  }

  /** No table has an entry for the stream. */
  predicate Forgotten(s: State, stream: int) {
    stream !in s.streams && stream !in s.heads && stream !in s.bodies
  }

  /** However the streams interleave, a request whose stream received some events and then ended is
      answered once, with the status line if a status came first, the header lines and the chunks of
      that stream, each in the order received. */
  lemma ResponseIsOwn(steps: seq<Step>, id: string, callback: nat, received: seq<Step>, stream: int)
    requires Valid(steps) && Paired(steps, id, stream) && Receives(received, stream)
    requires Own(steps, id, stream)
             == [Submit(id, callback, stream, true)] + received + [EndOfStream(stream)]
    ensures For(Run(steps).calls, id)
            == [Call(id, callback, Response(HeadText(received), Concat(Chunks(received))), false)]
    ensures id !in Run(steps).pending && Forgotten(Run(steps), stream)
  {
    hide Holds, Run, Valid, Own, Response, HeadText, Chunks;
    var before := [Submit(id, callback, stream, true)] + received;
    ReceivesAll(id, callback, received, stream);
    OwnAppend(before, EndOfStream(stream));
    StreamStandsAlone(steps, id, stream);
    EndAnswers(Run(before), id, callback, received, stream);
  }

  lemma EndAnswers(s: State, id: string, callback: nat, received: seq<Step>, stream: int)
    requires Receiving(s, id, callback, received, stream)
    ensures SliceOf(AfterEnd(s, stream), id, stream).callback == None && Forgotten(AfterEnd(s, stream), stream)
    ensures For(AfterEnd(s, stream).calls, id)
            == [Call(id, callback, Response(HeadText(received), Concat(Chunks(received))), false)]
  {
    hide Response, HeadText, Chunks, Concat, FirstCounted;
    var call := Call(id, callback, Response(HeadText(received), Concat(Chunks(received))), false);
    assert AfterEnd(s, stream).calls == [] + [call];
    ForAppend([], call, id);
  }

  predicate NeverSubmits(steps: seq<Step>, id: string) {
    forall i :: 0 <= i < |steps| ==> !(steps[i].Submit? && steps[i].id == id)
  }

  lemma QuietStep(s: State, step: Step, id: string)
    requires Enabled(s, step) && id !in s.pending && !(step.Submit? && step.id == id)
    ensures id !in After(s, step).pending && For(After(s, step).calls, id) == For(s.calls, id)
  {
    hide HeadsAfter, Response, For, Failed;
    match step
    case Submit(k, callback, _, _) => ForAppend(s.calls, Call(k, callback, "", true), id);
    case Timeout(k, _) =>
      if k in s.pending { ForAppend(s.calls, Call(k, s.pending[k], "", true), id); }
    case EndOfStream(k) =>
      if k in s.streams && s.streams[k] in s.pending {
        var other := s.streams[k];
        ForAppend(s.calls, Call(other, s.pending[other], Response(At(s.heads, k), At(s.bodies, k)), false), id);
      }
    case Close(order) =>
      if s.connected {
        ForFailed(s.pending, order, id);
        ForConcat(s.calls, Failed(s.pending, order), id);
      }
    case _ =>
  }

  /** Nothing that happens later adds to an answer: not the request's own timer, not the close. */
  lemma {:induction false} AnswerStays(steps: seq<Step>, later: seq<Step>, id: string)
    requires Valid(steps + later) && Valid(steps) && NeverSubmits(later, id) && id !in Run(steps).pending
    ensures id !in Run(steps + later).pending
    ensures For(Run(steps + later).calls, id) == For(Run(steps).calls, id)
    decreases |later|
  {
    hide After, For, Enabled;
    if later == [] {
      assert steps + later == steps;
    } else {
      var front, step := later[..|later| - 1], later[|later| - 1];
      var all := steps + later;
      assert all[..|all| - 1] == steps + front && all[|all| - 1] == step;
      AnswerStays(steps, front, id);
      QuietStep(Run(steps + front), step, id);
    }
  }

  /** The answer to a request is settled when its stream ends, and is its own stream's response. */
  lemma AnsweredOnceByOwnStream(steps: seq<Step>, later: seq<Step>, id: string, callback: nat,
                                received: seq<Step>, stream: int)
    requires Valid(steps) && Valid(steps + later) && Paired(steps, id, stream) && Receives(received, stream)
    requires Own(steps, id, stream)
             == [Submit(id, callback, stream, true)] + received + [EndOfStream(stream)]
    requires NeverSubmits(later, id)
    ensures For(Run(steps + later).calls, id)
            == [Call(id, callback, Response(HeadText(received), Concat(Chunks(received))), false)]
  {
    hide Run, Valid, Own, Response, HeadText, Chunks, For;
    ResponseIsOwn(steps, id, callback, received, stream);
    AnswerStays(steps, later, id);
  }
}
