/** The agent's HTTP/2 session: header events of many streams, interleaved, rebuild one request each. */
module AgentSession {
  import opened Wrappers
  import opened HttpText
  import opened HttpTranslation

  datatype Event =
    | HeaderReceived(stream: int, pair: Pair)
    | StreamEnded(stream: int)

  datatype Delivery = Delivery(stream: int, request: HTTP2Request)

  datatype Session = Session(pending: map<int, HTTP2Request>, delivered: seq<Delivery>)

  function Pending(pending: map<int, HTTP2Request>, stream: int): HTTP2Request {
    if stream in pending then pending[stream] else BLANK
  }

  function AfterEvent(s: Session, e: Event): Session {
    match e
    case HeaderReceived(stream, pair) =>
      s.(pending := s.pending[stream := WithHeader(Pending(s.pending, stream), pair)])
    case StreamEnded(stream) =>
      if stream !in s.pending then s
      else Session(s.pending - {stream}, s.delivered + [Delivery(stream, s.pending[stream])])
  }

  class HTTP2Session {
    var pendingRequests: map<int, HTTP2Request>
    ghost var delivered: seq<Delivery>

    ghost function View(): Session
      reads this
    {
      Session(pendingRequests, delivered)
    }

    constructor ()
      ensures View() == Session(map[], [])
    {
      pendingRequests, delivered := map[], [];
    }

    method OnHeader(stream: int, name: string, value: string)
      modifies this
      ensures View() == AfterEvent(old(View()), HeaderReceived(stream, Pair(name, value)))
    {
      var request := if stream in pendingRequests then pendingRequests[stream] else BLANK;
      if name == ":method" {
        request := request.(verb := value);
      } else if name == ":path" {
        request := request.(path := value);
      } else if name == ":authority" {
        request := request.(authority := value);
      } else if name == "x-tunnel-request-id" {
        request := request.(requestId := value);
      } else if name == "x-client-ip" {
        request := request.(clientIp := value);
      } else {
        request := request.(headers := request.headers[name := value]);
      }
      pendingRequests := pendingRequests[stream := request];
    }

    /** The last frame of a stream hands its request to the agent, if there is one. */
    method OnEndOfStream(stream: int) returns (request: Option<HTTP2Request>)
      modifies this
      ensures View() == AfterEvent(old(View()), StreamEnded(stream))
      ensures delivered == old(delivered) + (if request.Some? then [Delivery(stream, request.value)] else [])
    {
      request := None;
      if stream in pendingRequests {
        request := Some(pendingRequests[stream]);
        pendingRequests := pendingRequests - {stream};
        delivered := delivered + [Delivery(stream, request.value)];
      }
    }
  }

  function Run(events: seq<Event>): Session {
    if events == [] then Session(map[], []) else AfterEvent(Run(events[..|events| - 1]), events[|events| - 1])
  }

  function Own(events: seq<Event>, stream: int): seq<Event> {
    if events == [] then []
    else
      var before, e := Own(events[..|events| - 1], stream), events[|events| - 1];
      if e.stream == stream then before + [e] else before
  }

  /** The requests handed over for one stream. */
  function For(delivered: seq<Delivery>, stream: int): seq<HTTP2Request> {
    if delivered == [] then []
    else
      var before, d := For(delivered[..|delivered| - 1], stream), delivered[|delivered| - 1];
      if d.stream == stream then before + [d.request] else before
  }

  lemma RunAppend(events: seq<Event>, e: Event)
    ensures Run(events + [e]) == AfterEvent(Run(events), e)
  {
    assert (events + [e])[..|events + [e]| - 1] == events;
  }

  lemma ForAppend(delivered: seq<Delivery>, d: Delivery, stream: int)
    ensures For(delivered + [d], stream) == For(delivered, stream) + (if d.stream == stream then [d.request] else [])
  {
    assert (delivered + [d])[..|delivered + [d]| - 1] == delivered;
  }

  /** Two sessions agree on one stream. */
  predicate Alike(a: Session, b: Session, stream: int) {
    && (stream in a.pending <==> stream in b.pending)
    && (stream in a.pending ==> a.pending[stream] == b.pending[stream])
    && For(a.delivered, stream) == For(b.delivered, stream)
  }

  lemma AlikeAfter(a: Session, b: Session, e: Event, stream: int)
    requires Alike(a, b, stream)
    ensures e.stream == stream ==> Alike(AfterEvent(a, e), AfterEvent(b, e), stream)
    ensures e.stream != stream ==> Alike(AfterEvent(a, e), b, stream)
  {
    hide WithHeader, For;
    if e.StreamEnded? && e.stream in a.pending {
      ForAppend(a.delivered, Delivery(e.stream, a.pending[e.stream]), stream);
      if e.stream == stream {
        ForAppend(b.delivered, Delivery(e.stream, b.pending[e.stream]), stream);
      }
    }
  }

  /** What a stream delivers, and what it still holds, depends on its own events alone. */
  lemma {:induction false} StreamStandsAlone(events: seq<Event>, stream: int)
    ensures Alike(Run(events), Run(Own(events, stream)), stream)
  {
    if events != [] {
      hide AfterEvent, Alike;
      var front, e := events[..|events| - 1], events[|events| - 1];
      StreamStandsAlone(front, stream);
      AlikeAfter(Run(front), Run(Own(front, stream)), e, stream);
      RunAppend(Own(front, stream), e);
    }
  }

  function HeaderEvents(stream: int, pairs: seq<Pair>): seq<Event> {
    if pairs == [] then []
    else HeaderEvents(stream, pairs[..|pairs| - 1]) + [HeaderReceived(stream, pairs[|pairs| - 1])]
  }

  lemma {:induction false} HeadersAccumulate(stream: int, pairs: seq<Pair>)
    ensures var s := Run(HeaderEvents(stream, pairs));
            && (stream in s.pending <==> pairs != [])
            && Pending(s.pending, stream) == Rebuild(pairs)
            && s.delivered == []
  {
    hide WithHeader;
    if pairs != [] {
      var front, p := pairs[..|pairs| - 1], pairs[|pairs| - 1];
      HeadersAccumulate(stream, front);
      RunAppend(HeaderEvents(stream, front), HeaderReceived(stream, p));
    }
  }

  /** However the streams interleave, the one that carried a request's header pairs delivers that
      request, once, with its meaning unchanged. */
  lemma EachStreamDeliversItsRequest(events: seq<Event>, stream: int, r: HTTPRequest, requestId: string,
                                     printed: seq<string>, order: seq<string>)
    requires WellFormed(r) && Enumerates(printed, r.headers.Keys) && Enumerates(order, r.headers.Keys)
    requires Reread(Print(r, printed)).headers == r.headers
    requires Own(events, stream)
             == HeaderEvents(stream, HeaderPairs(Reread(Print(r, printed)), requestId, order)) + [StreamEnded(stream)]
    ensures For(Run(events).delivered, stream) == [Meaning(r, Lookup(r.headers, REQUEST_ID, requestId))]
    ensures stream !in Run(events).pending
  {
    hide WellFormed, Print, Reread, Meaning, Run, Own, Rebuild, HeaderPairs;
    var pairs := HeaderPairs(Reread(Print(r, printed)), requestId, order);
    TranslationKeepsMeaning(r, requestId, printed, order);
    StreamStandsAlone(events, stream);
    HeadersAccumulate(stream, pairs);
    PairsAreSome(Reread(Print(r, printed)), requestId, order);
    RunAppend(HeaderEvents(stream, pairs), StreamEnded(stream));
    var none: seq<Delivery> := [];
    assert none + [Delivery(stream, Rebuild(pairs))] == [Delivery(stream, Rebuild(pairs))];
    ForAppend(none, Delivery(stream, Rebuild(pairs)), stream);
  }

  lemma PairsAreSome(s: Sent, requestId: string, order: seq<string>)
    requires forall k :: k in order ==> k in s.headers
    ensures HeaderPairs(s, requestId, order) != []
  {
  }
}
