/** What can be read out of an answer: the status line, the headers and the body its stream carried. */
module ResponseText {
  import opened Wrappers
  import opened Sequences
  import opened Text
  import opened HttpText
  import opened HttpTranslation
  import opened AgentRequests
  import opened ResponseAssembly

  /** The regular headers received, the last of each name. */
  function Table(received: seq<Step>): map<string, string> {
    if received == [] then map[]
    else
      var before, step := Table(received[..|received| - 1]), received[|received| - 1];
      if step.Header? && (step.pair.name == "" || step.pair.name[0] != ':')
      then before[step.pair.name := step.pair.value] else before
  }

  /** Header names as HTTP/2 sends them, without colons or upper-case letters, and values without line
      breaks and outer blanks. */
  predicate GoodPairs(received: seq<Step>) {
    forall i :: 0 <= i < |received| && received[i].Header? && Counts(received[i].pair) ==>
      && GoodValue(received[i].pair.value)
      && (received[i].pair.name == ":status" || GoodName(received[i].pair.name))
  }

  /** The head that the printed lines read back as. */
  function Reads(h: Head, received: seq<Step>): Head {
    if received == [] then h
    else
      var before, step := Reads(h, received[..|received| - 1]), received[|received| - 1];
      if step.Header? && !IsPseudo(step.pair.name) then With(before, step.pair.name, step.pair.value) else before
  }

  lemma {:induction false} ReadsTable(received: seq<Step>)
    ensures Reads(Head(map[], ""), received).headers == Table(received)
  {
    if received != [] { ReadsTable(received[..|received| - 1]); }
  }

  lemma GoodFront(received: seq<Step>)
    requires received != [] && GoodPairs(received)
    ensures GoodPairs(received[..|received| - 1])
  {
    var front := received[..|received| - 1];
    forall i | 0 <= i < |front| ensures front[i] == received[i] {
    }
  }

  /** The header lines, read from the start of a text. */
  lemma {:induction false} LinesRead(h: Head, received: seq<Step>, tail: string)
    requires GoodPairs(received)
    ensures ReadHead(Concat(Lines(received)) + tail, h) == ReadHead(tail, Reads(h, received))
    decreases |received|
  {
    hide ReadHead, GoodName, GoodValue, HeaderLine, IsPseudo, Concat;
    if received == [] {
      NoStrings();
      assert "" + tail == tail;
    } else {
      var front, step := received[..|received| - 1], received[|received| - 1];
      GoodFront(received);
      if step.Header? && !IsPseudo(step.pair.name) {
        var p := step.pair;
        var line := HeaderLine(p.name, p.value);
        RegularCounts(p);
        StatusIsPseudo();
        assert Counts(p) && received[|received| - 1].pair == p;
        LinesRead(h, front, line + tail);
        ConcatAppend(Lines(front), line);
        Associative(Concat(Lines(front)), line, tail);
        ReadPrintedLine(Reads(h, front), p.name, p.value, tail);
      } else {
        LinesRead(h, front, tail);
      }
    }
  }

  lemma HeadReads(received: seq<Step>, body: string)
    requires GoodPairs(received)
    ensures var r := ReadHead(Concat(Lines(received)) + ("\r\n" + body), Head(map[], ""));
            r.0.headers == Table(received) && r.1 == body
  {
    hide ReadHead, Concat, Lines, GoodPairs;
    LinesRead(Head(map[], ""), received, "\r\n" + body);
    ReadBlankLine(Reads(Head(map[], ""), received), body);
    ReadsTable(received);
  }

  /** What a client reads from an answer: without a counted header the body alone; otherwise a status
      line if the status came first, then the headers, then the body. */
  predicate Tells(text: string, received: seq<Step>) {
    var first, body := FirstCounted(received), Concat(Chunks(received));
    if first.None? then text == body
    else
      var head := if first.value.name == ":status" then AfterLine(text) else text;
      && (first.value.name == ":status" ==> Line(text) == "HTTP/1.1 " + first.value.value + " OK\r")
      && var r := ReadHead(head, Head(map[], ""));
         r.0.headers == Table(received) && r.1 == body
  }

  lemma {:induction false} FirstIsGood(received: seq<Step>)
    requires GoodPairs(received) && FirstCounted(received).Some?
    ensures var p := FirstCounted(received).value; GoodValue(p.value) && Counts(p)
  {
    hide Counts, GoodValue, GoodName;
    var front, step := received[..|received| - 1], received[|received| - 1];
    GoodFront(received);
    if FirstCounted(front).Some? { FirstIsGood(front); }
  }

  lemma {:induction false} CountedHasLine(received: seq<Step>)
    requires FirstCounted(received).Some? && FirstCounted(received).value.name != ":status"
    ensures Concat(Lines(received)) != ""
  {
    hide Concat, IsPseudo;
    var front, step := received[..|received| - 1], received[|received| - 1];
    if FirstCounted(front).Some? { CountedHasLine(front); }
    if step.Header? { RegularCounts(step.pair); }
    if step.Header? && !IsPseudo(step.pair.name) {
      ConcatAppend(Lines(front), HeaderLine(step.pair.name, step.pair.value));
    }
  }

  lemma ResponseTells(received: seq<Step>)
    requires GoodPairs(received)
    ensures Tells(Response(HeadText(received), Concat(Chunks(received))), received)
  {
    hide ReadHead, Line, AfterLine, Concat, Chunks, Lines, FirstCounted, Table, GoodPairs;
    var first, body, lines := FirstCounted(received), Concat(Chunks(received)), Concat(Lines(received));
    HeadReads(received, body);
    if first.None? {
      NoneCountedNoLines(received);
      NoStrings();
    } else if first.value.name == ":status" {
      FirstIsGood(received);
      var line := "HTTP/1.1 " + first.value.value + " OK\r";
      StatusText(received, body);
      LineOf(line, lines + ("\r\n" + body));
    } else {
      CountedHasLine(received);
      Associative(lines, "\r\n", body);
      assert "" + lines == lines;
    }
  }

  lemma StatusText(received: seq<Step>, body: string)
    requires FirstCounted(received).Some? && FirstCounted(received).value.name == ":status"
    ensures Response(HeadText(received), body)
            == "HTTP/1.1 " + FirstCounted(received).value.value + " OK\r" + "\n"
               + (Concat(Lines(received)) + ("\r\n" + body))
  {
    hide Concat, Lines, FirstCounted;
    var start, lines := "HTTP/1.1 " + FirstCounted(received).value.value, Concat(Lines(received));
    Associative(start, " OK\r", "\n");
    assert " OK\r" + "\n" == " OK\r\n";
    Associative(start + " OK\r\n", lines, "\r\n");
    Associative(start + " OK\r\n", lines + "\r\n", body);
    Associative(lines, "\r\n", body);
  }

  /** However the streams interleave, a request whose stream received some events and then ended has been
      answered by exactly one call, at any later time, and the call's text tells exactly what the stream
      carried; the tables have forgotten the stream. */
  lemma AnswerTellsItsStream(steps: seq<Step>, later: seq<Step>, id: string, callback: nat,
                             received: seq<Step>, stream: int)
    requires Valid(steps) && Valid(steps + later) && Paired(steps, id, stream) && Receives(received, stream)
    requires Own(steps, id, stream)
             == [Submit(id, callback, stream, true)] + received + [EndOfStream(stream)]
    requires NeverSubmits(later, id) && GoodPairs(received)
    ensures var calls := For(Run(steps + later).calls, id);
            |calls| == 1 && calls[0].callback == callback && !calls[0].error && Tells(calls[0].response, received)
    ensures var s := Run(steps);
            id !in s.pending && stream !in s.streams && stream !in s.heads && stream !in s.bodies
  {
    hide Run, Valid, Own, Response, HeadText, Chunks, For, Tells, Paired;
    AnsweredOnceByOwnStream(steps, later, id, callback, received, stream);
    ResponseTells(received);
    ResponseIsOwn(steps, id, callback, received, stream);
  }

  /** A request that times out reports an error, and what its stream had received stays in the tables. */
  lemma TimeoutLeavesText(steps: seq<Step>, id: string, callback: nat, received: seq<Step>, stream: int)
    requires Valid(steps) && Paired(steps, id, stream) && Receives(received, stream)
    requires Own(steps, id, stream)
             == [Submit(id, callback, stream, true)] + received + [Timeout(id, stream)]
    ensures For(Run(steps).calls, id) == [Call(id, callback, "", true)]
    ensures var s := Run(steps);
            && id !in s.pending && stream !in s.streams
            && (stream in s.heads <==> FirstCounted(received).Some?)
            && At(s.heads, stream) == HeadText(received) && At(s.bodies, stream) == Concat(Chunks(received))
  {
    hide Run, Valid, Own, HeadText, Chunks, FirstCounted, For, Paired;
    var before := [Submit(id, callback, stream, true)] + received;
    ReceivesAll(id, callback, received, stream);
    EnabledUnlessClose(Run(before), Timeout(id, stream));
    OwnAppend(before, Timeout(id, stream));
    StreamStandsAlone(steps, id, stream);
    TimeoutAnswers(Run(before), id, callback, received, stream);
    SliceTexts(Run(steps), After(Run(before), Timeout(id, stream)), id, stream);
  }

  /** A request that the close finds waiting reports an error; its stream stays mapped, and what it had
      received stays in the tables. */
  lemma CloseLeavesText(steps: seq<Step>, id: string, callback: nat, received: seq<Step>, stream: int)
    requires Valid(steps) && Paired(steps, id, stream) && Receives(received, stream)
    requires Own(steps, id, stream)
             == [Submit(id, callback, stream, true)] + received + [Close([id])]
    ensures For(Run(steps).calls, id) == [Call(id, callback, "", true)]
    ensures var s := Run(steps);
            && id !in s.pending && stream in s.streams
            && (stream in s.heads <==> FirstCounted(received).Some?)
            && At(s.heads, stream) == HeadText(received) && At(s.bodies, stream) == Concat(Chunks(received))
  {
    hide Run, Valid, Own, HeadText, Chunks, FirstCounted, For, Paired;
    var before := [Submit(id, callback, stream, true)] + received;
    ReceivesAll(id, callback, received, stream);
    CloseIsEnabled(Run(before), id);
    OwnAppend(before, Close([id]));
    StreamStandsAlone(steps, id, stream);
    CloseAnswers(Run(before), id, callback, received, stream);
    SliceTexts(Run(steps), After(Run(before), Close([id])), id, stream);
  }

  lemma CloseIsEnabled(s: State, id: string)
    requires s.pending.Keys == {id}
    ensures Enabled(s, Close([id]))
  {
  }

  lemma CloseAnswers(s: State, id: string, callback: nat, received: seq<Step>, stream: int)
    requires Receiving(s, id, callback, received, stream)
    ensures Enabled(s, Close([id]))
    ensures var t := After(s, Close([id]));
            && For(t.calls, id) == [Call(id, callback, "", true)] && id !in t.pending && stream in t.streams
            && Holds(t, received, stream)
  {
    CloseIsEnabled(s, id);
    hide HeadText, Chunks, Concat, FirstCounted;
    var call, none: seq<string> := Call(id, callback, "", true), [];
    assert [id][..0] == none && Failed(s.pending, none) == [];
    assert Failed(s.pending, [id]) == [call];
    assert After(s, Close([id])).calls == [] + [call];
    ForAppend([], call, id);
  }

  lemma SliceTexts(a: State, b: State, id: string, stream: int)
    requires SliceOf(a, id, stream) == SliceOf(b, id, stream)
    ensures (id in a.pending <==> id in b.pending) && (stream in a.streams <==> stream in b.streams)
    ensures (stream in a.heads <==> stream in b.heads) && For(a.calls, id) == For(b.calls, id)
    ensures At(a.heads, stream) == At(b.heads, stream) && At(a.bodies, stream) == At(b.bodies, stream)
  {
    hide For;
  }

  lemma TimeoutAnswers(s: State, id: string, callback: nat, received: seq<Step>, stream: int)
    requires Receiving(s, id, callback, received, stream)
    ensures var t := AfterTimeout(s, id, stream);
            && For(t.calls, id) == [Call(id, callback, "", true)] && id !in t.pending && stream !in t.streams
            && Holds(t, received, stream)
  {
    hide HeadText, Chunks, Concat, FirstCounted;
    var call := Call(id, callback, "", true);
    assert AfterTimeout(s, id, stream).calls == [] + [call];
    ForAppend([], call, id);
  }

  /** As long as the connection is up, a request waits exactly as long as its stream is mapped to it. */
  lemma {:induction false} WaitsWithItsStream(steps: seq<Step>, id: string, stream: int)
    requires Valid(steps) && Paired(steps, id, stream)
    ensures Run(steps).connected ==> (id in Run(steps).pending <==> stream in Run(steps).streams)
    ensures Isolated(Run(steps), id, stream)
  {
    hide Pairs, Isolated;
    if steps == [] {
      StartIsBare(id, stream);
    } else {
      var front, step := steps[..|steps| - 1], steps[|steps| - 1];
      assert Pairs(step, id, stream);
      WaitsWithItsStream(front, id, stream);
      KeepsIsolated(Run(front), step, id, stream);
      KeepsWaiting(Run(front), step, id, stream);
    }
  }

  lemma KeepsWaiting(s: State, step: Step, id: string, stream: int)
    requires Enabled(s, step) && Isolated(s, id, stream) && Pairs(step, id, stream)
    requires s.connected ==> (id in s.pending <==> stream in s.streams)
    ensures After(s, step).connected ==> (id in After(s, step).pending <==> stream in After(s, step).streams)
  {
    hide HeadsAfter, Response, Failed, Enabled;
  }

  // ----- success and failure -----

  function Successes(calls: seq<Call>, callback: nat): nat {
    if calls == [] then 0
    else
      var last := calls[|calls| - 1];
      Successes(calls[..|calls| - 1], callback) + (if last.callback == callback && !last.error then 1 else 0)
  }

  /** The end of a stream whose request waits with this callback. */
  predicate Ends(s: State, step: Step, callback: nat) {
    && step.EndOfStream? && step.stream in s.streams && s.streams[step.stream] in s.pending
    && s.pending[s.streams[step.stream]] == callback
  }

  ghost function Ended(steps: seq<Step>, callback: nat): nat
    requires Valid(steps)
  {
    if steps == [] then 0
    else
      var front := steps[..|steps| - 1];
      Ended(front, callback) + (if Ends(Run(front), steps[|steps| - 1], callback) then 1 else 0)
  }

  ghost predicate ErrorsAreEmpty(calls: seq<Call>) {
    forall i :: 0 <= i < |calls| && calls[i].error ==> calls[i].response == ""
  }

  lemma SuccessesAppend(calls: seq<Call>, call: Call, callback: nat)
    requires ErrorsAreEmpty(calls) && (call.error ==> call.response == "")
    ensures Successes(calls + [call], callback)
            == Successes(calls, callback) + (if call.callback == callback && !call.error then 1 else 0)
    ensures ErrorsAreEmpty(calls + [call])
  {
    assert (calls + [call])[..|calls + [call]| - 1] == calls;
  }

  lemma {:induction false} FailuresAppend(calls: seq<Call>, pending: map<string, nat>, order: seq<string>,
                                          callback: nat)
    requires ErrorsAreEmpty(calls) && forall id :: id in order ==> id in pending
    ensures Successes(calls + Failed(pending, order), callback) == Successes(calls, callback)
    ensures ErrorsAreEmpty(calls + Failed(pending, order))
    decreases |order|
  {
    if order == [] {
      assert calls + Failed(pending, order) == calls;
    } else {
      var front, id := order[..|order| - 1], order[|order| - 1];
      FailuresAppend(calls, pending, front, callback);
      var call := Call(id, pending[id], "", true);
      Associative(calls, Failed(pending, front), [call]);
      SuccessesAppend(calls + Failed(pending, front), call, callback);
    }
  }

  lemma StepSucceeds(s: State, step: Step, c: nat)
    requires Enabled(s, step) && ErrorsAreEmpty(s.calls)
    ensures Successes(After(s, step).calls, c) == Successes(s.calls, c) + (if Ends(s, step, c) then 1 else 0)
    ensures ErrorsAreEmpty(After(s, step).calls)
  {
    hide HeadsAfter, Response, Failed, Successes, ErrorsAreEmpty;
    match step
    case Submit(id, callback, _, accepted) =>
      if !s.connected || !accepted { SuccessesAppend(s.calls, Call(id, callback, "", true), c); }
    case EndOfStream(k) =>
      if k in s.streams && s.streams[k] in s.pending {
        var id := s.streams[k];
        SuccessesAppend(s.calls, Call(id, s.pending[id], Response(At(s.heads, k), At(s.bodies, k)), false), c);
      }
    case Timeout(id, _) =>
      if id in s.pending { SuccessesAppend(s.calls, Call(id, s.pending[id], "", true), c); }
    case Close(order) =>
      if s.connected { FailuresAppend(s.calls, s.pending, order, c); }
    case _ =>
  }

  /** Over every run, a callback is told of success exactly as often as a stream ends while its request
      waits; every other call, of a refusal, a timeout or a close, reports an error without a text. */
  lemma {:induction false} SuccessExactlyWhenEnded(steps: seq<Step>, callback: nat)
    requires Valid(steps)
    ensures Successes(Run(steps).calls, callback) == Ended(steps, callback)
    ensures ErrorsAreEmpty(Run(steps).calls)
  {
    if steps != [] {
      hide After, Enabled, Ends;
      var front, step := steps[..|steps| - 1], steps[|steps| - 1];
      SuccessExactlyWhenEnded(front, callback);
      StepSucceeds(Run(front), step, callback);
    }
  }
}
