/** A request on its way to the agent: re-parsed from text, turned into HTTP/2 header pairs, carried on
    a stream among others, and rebuilt on the other side. Bodies are not followed here. */
module HttpTranslation {
  import opened Text
  import opened HttpText

  datatype Pair = Pair(name: string, value: string)

  const REQUEST_ID := "x-tunnel-request-id"
  const CLIENT_IP := "x-client-ip"

  /** What the sender reads back from the printed request. */
  datatype Sent = Sent(first: RequestLine, headers: map<string, string>, body: string)

  function Reread(text: string): Sent {
    var (head, body) := ReadHead(AfterLine(text), Head(map[], ""));
    Sent(Words(Line(text)), head.headers, body)
  }

  function Pseudo(s: Sent): seq<Pair> {
    [Pair(":method", s.first.verb), Pair(":path", s.first.path), Pair(":scheme", "https")]
    + (if "host" in s.headers then [Pair(":authority", s.headers["host"])] else [])
  }

  /** The regular headers, without the host, in the order visited. */
  function Regular(headers: map<string, string>, order: seq<string>): seq<Pair>
    requires forall k :: k in order ==> k in headers
  {
    if order == [] then []
    else
      var name := order[|order| - 1];
      Regular(headers, order[..|order| - 1]) + (if name == "host" then [] else [Pair(name, headers[name])])
  }

  function HeaderPairs(s: Sent, requestId: string, order: seq<string>): seq<Pair>
    requires forall k :: k in order ==> k in s.headers
  {
    Pseudo(s) + [Pair(REQUEST_ID, requestId)] + Regular(s.headers, order)
  }

  method AddRegular(start: seq<Pair>, headers: map<string, string>)
    returns (pairs: seq<Pair>, ghost order: seq<string>)
    ensures Enumerates(order, headers.Keys)
    ensures pairs == start + Regular(headers, order)
  {
    pairs, order := start, [];
    var left := headers.Keys;
    while left != {}
      invariant left <= headers.Keys && Enumerates(order, headers.Keys - left)
      invariant pairs == start + Regular(headers, order)
      decreases |left|
    {
      var name :| name in left;
      if name != "host" {
        pairs := pairs + [Pair(name, headers[name])];
      }
      assert (order + [name])[..|order|] == order;
      left, order := left - {name}, order + [name];
    }
  }

  method BuildHeaderPairs(text: string, requestId: string) returns (pairs: seq<Pair>)
    ensures exists order :: Enumerates(order, Reread(text).headers.Keys)
                            && pairs == HeaderPairs(Reread(text), requestId, order)
  {
    hide Words, ReadHead, Regular;
    var first := Words(Line(text));
    var headers, _, body := ReadHeaders(AfterLine(text));
    pairs := [Pair(":method", first.verb), Pair(":path", first.path)];
    pairs := pairs + [Pair(":scheme", "https")];
    if "host" in headers {
      pairs := pairs + [Pair(":authority", headers["host"])];
    }
    pairs := pairs + [Pair("x-tunnel-request-id", requestId)];
    assert pairs == Pseudo(Reread(text)) + [Pair(REQUEST_ID, requestId)];
    ghost var order;
    pairs, order := AddRegular(pairs, headers);
    assert Enumerates(order, headers.Keys) && pairs == HeaderPairs(Reread(text), requestId, order);
  }

  // ----- the agent's side -----

  datatype HTTP2Request = HTTP2Request(
    verb: string, path: string, authority: string, headers: map<string, string>,
    requestId: string, clientIp: string)

  const BLANK := HTTP2Request("", "", "", map[], "", "")

  function WithHeader(r: HTTP2Request, p: Pair): HTTP2Request {
    if p.name == ":method" then r.(verb := p.value)
    else if p.name == ":path" then r.(path := p.value)
    else if p.name == ":authority" then r.(authority := p.value)
    else if p.name == REQUEST_ID then r.(requestId := p.value)
    else if p.name == CLIENT_IP then r.(clientIp := p.value)
    else r.(headers := r.headers[p.name := p.value])
  }

  function WithHeaders(r: HTTP2Request, pairs: seq<Pair>): HTTP2Request {
    if pairs == [] then r else WithHeader(WithHeaders(r, pairs[..|pairs| - 1]), pairs[|pairs| - 1])
  }

  function Rebuild(pairs: seq<Pair>): HTTP2Request {
    WithHeaders(BLANK, pairs)
  }

  // ----- the translation keeps the meaning -----

  predicate Plain(name: string) {
    name != "host" && name != "x-tunnel-request-id" && name != "x-client-ip"
  }

  function Lookup(headers: map<string, string>, name: string, otherwise: string): string {
    if name in headers then headers[name] else otherwise
  }

  /** What a request means to the agent: method and path, host as authority, the client's address, and
      every other header unchanged beside the scheme. */
  function Meaning(r: HTTPRequest, requestId: string): HTTP2Request {
    HTTP2Request(r.verb, r.path, r.host,
                 (map name | name in r.headers && Plain(name) :: r.headers[name])[":scheme" := "https"],
                 requestId, Lookup(r.headers, "x-client-ip", ""))
  }

  lemma WordsIgnoreReturn(line: string)
    ensures Words(DropReturn(line)) == Words(line)
  {
    if line != "" && line[|line| - 1] == '\r' {
      var l := line[..|line| - 1];
      assert line == l + "\r";
      WordIgnoresReturn(l);
      WordIgnoresReturn(AfterWord(l));
      WordIgnoresReturn(AfterWord(AfterWord(l)));
      hide Word, AfterWord;
    }
  }

  lemma {:induction false} SkipIgnoresReturn(s: string)
    ensures SkipSpaces(s) != "" ==> SkipSpaces(s + "\r") == SkipSpaces(s) + "\r"
    ensures SkipSpaces(s) == "" ==> SkipSpaces(s + "\r") == ""
  {
    if s == "" {
      assert "\r"[1..] == "";
      assert s + "\r" == "\r";
    } else {
      assert (s + "\r")[1..] == s[1..] + "\r";
      SkipIgnoresReturn(s[1..]);
    }
  }

  lemma WordIgnoresReturn(s: string)
    ensures Word(s + "\r") == Word(s)
    ensures AfterWord(s + "\r") == AfterWord(s) || AfterWord(s + "\r") == AfterWord(s) + "\r"
  {
    SkipIgnoresReturn(s);
    var t := SkipSpaces(s);
    var n := Find(t, SPACES);
    if t != "" {
      FindIsFirst(t + "\r", SPACES, n);
      assert (t + "\r")[..n] == t[..n] && (t + "\r")[n..] == t[n..] + "\r";
    }
  }

  /** The sender's own parsing loop reads what the proxy's parser reads. */
  lemma RereadAgrees(text: string)
    requires text != ""
    ensures var p := Parse(text).value;
            Reread(text) == Sent(RequestLine(p.verb, p.path, p.version), p.headers, p.body)
  {
    hide ReadHead, Words;
    WordsIgnoreReturn(Line(text));
  }

  lemma {:induction false} WithHeadersConcat(r: HTTP2Request, a: seq<Pair>, b: seq<Pair>)
    ensures WithHeaders(r, a + b) == WithHeaders(WithHeaders(r, a), b)
    decreases |b|
  {
    hide WithHeader;
    if b == [] {
      assert a + b == a;
    } else {
      WithHeadersConcat(r, a, b[..|b| - 1]);
      assert (a + b)[..|a + b| - 1] == a + b[..|b| - 1];
    }
  }

  lemma OneHeader(r: HTTP2Request, p: Pair)
    ensures WithHeaders(r, [p]) == WithHeader(r, p)
  {
    hide WithHeader;
    assert [p][..0] == [];
    assert WithHeaders(r, []) == r;
  }

  lemma NotPseudo(name: string)
    requires GoodName(name)
    ensures name != ":method" && name != ":path" && name != ":scheme" && name != ":authority"
  {
    assert ":method"[0] == ':' && ":path"[0] == ':' && ":scheme"[0] == ':' && ":authority"[0] == ':';
  }

  ghost predicate GoodNames(headers: map<string, string>) {
    forall name :: name in headers ==> GoodName(name)
  }

  /** What the regular headers add to a request, whatever their order. */
  ghost predicate Adds(q: HTTP2Request, base: HTTP2Request, headers: map<string, string>, order: seq<string>)
    requires forall k :: k in order ==> k in headers
  {
    && q.verb == base.verb && q.path == base.path && q.authority == base.authority
    && q.requestId == (if REQUEST_ID in order then headers[REQUEST_ID] else base.requestId)
    && q.clientIp == (if CLIENT_IP in order then headers[CLIENT_IP] else base.clientIp)
    && (forall k :: k in q.headers <==> k in base.headers || (k in order && Plain(k)))
    && (forall k :: k in q.headers ==>
          q.headers[k] == if k in order && Plain(k) then headers[k] else base.headers[k])
  }

  /** The three ways a regular header changes the request. */
  function WithRegular(q: HTTP2Request, name: string, value: string): HTTP2Request {
    if name == REQUEST_ID then q.(requestId := value)
    else if name == CLIENT_IP then q.(clientIp := value)
    else if name == "host" then q
    else q.(headers := q.headers[name := value])
  }

  lemma RegularHeader(q: HTTP2Request, name: string, value: string)
    requires GoodName(name)
    ensures WithRegular(q, name, value) == if name == "host" then q else WithHeader(q, Pair(name, value))
  {
    NotPseudo(name);
    hide GoodName;
  }

  lemma AddsOne(q: HTTP2Request, base: HTTP2Request, headers: map<string, string>, front: seq<string>, name: string)
    requires name in headers && forall k :: k in front ==> k in headers
    requires Adds(q, base, headers, front)
    ensures Adds(WithRegular(q, name, headers[name]), base, headers, front + [name])
  {
    var q', order := WithRegular(q, name, headers[name]), front + [name];
    assert forall k :: k in order <==> k in front || k == name;
    forall k
      ensures k in q'.headers <==> k in base.headers || (k in order && Plain(k))
      ensures k in q'.headers ==> q'.headers[k] == if k in order && Plain(k) then headers[k] else base.headers[k]
    {
    }
  }

  lemma {:induction false} RegularAdds(base: HTTP2Request, headers: map<string, string>, order: seq<string>)
    requires GoodNames(headers) && forall k :: k in order ==> k in headers
    ensures Adds(WithHeaders(base, Regular(headers, order)), base, headers, order)
    decreases |order|
  {
    if order != [] {
      hide WithHeader, WithRegular, GoodName, Adds;
      var front, name := order[..|order| - 1], order[|order| - 1];
      var q := WithHeaders(base, Regular(headers, front));
      RegularAdds(base, headers, front);
      AddsOne(q, base, headers, front, name);
      RegularHeader(q, name, headers[name]);
      assert order == front + [name];
      if name == "host" {
        assert Regular(headers, front) + [] == Regular(headers, front);
      } else {
        WithHeadersConcat(base, Regular(headers, front), [Pair(name, headers[name])]);
        OneHeader(q, Pair(name, headers[name]));
      }
    }
  }

  lemma RebuildStart(s: Sent, requestId: string)
    ensures Rebuild(Pseudo(s) + [Pair(REQUEST_ID, requestId)])
            == HTTP2Request(s.first.verb, s.first.path, Lookup(s.headers, "host", ""),
                            map[":scheme" := "https"], requestId, "")
  {
    var a := [Pair(":method", s.first.verb), Pair(":path", s.first.path), Pair(":scheme", "https")];
    var host := if "host" in s.headers then [Pair(":authority", s.headers["host"])] else [];
    RebuildPseudo(s.first);
    WithHeadersConcat(BLANK, a, host);
    WithHeadersConcat(BLANK, Pseudo(s), [Pair(REQUEST_ID, requestId)]);
    OneHeader(Rebuild(Pseudo(s)), Pair(REQUEST_ID, requestId));
    if "host" in s.headers {
      OneHeader(Rebuild(a), host[0]);
    }
  }

  lemma RebuildPseudo(first: RequestLine)
    ensures Rebuild([Pair(":method", first.verb), Pair(":path", first.path), Pair(":scheme", "https")])
            == HTTP2Request(first.verb, first.path, "", map[":scheme" := "https"], "", "")
  {
    var m, p, s := Pair(":method", first.verb), Pair(":path", first.path), Pair(":scheme", "https");
    assert [m, p, s] == ([m] + [p]) + [s];
    WithHeadersConcat(BLANK, [m] + [p], [s]);
    WithHeadersConcat(BLANK, [m], [p]);
    OneHeader(BLANK, m);
    OneHeader(WithHeader(BLANK, m), p);
    OneHeader(WithHeader(WithHeader(BLANK, m), p), s);
  }

  lemma AddsMeaning(r: HTTPRequest, requestId: string, order: seq<string>, q: HTTP2Request)
    requires Enumerates(order, r.headers.Keys) && r.host == Lookup(r.headers, "host", "")
    requires Adds(q, HTTP2Request(r.verb, r.path, r.host, map[":scheme" := "https"], requestId, ""), r.headers, order)
    requires ":scheme" !in r.headers
    ensures q == Meaning(r, Lookup(r.headers, REQUEST_ID, requestId))
  {
    hide Plain;
    assert q.headers == Meaning(r, requestId).headers;
  }

  /** The headers rebuilt at the agent, for any order of the table. */
  lemma PairsRebuild(r: HTTPRequest, requestId: string, order: seq<string>)
    requires WellFormed(r) && Enumerates(order, r.headers.Keys)
    ensures Rebuild(HeaderPairs(Sent(RequestLine(r.verb, r.path, r.version), r.headers, r.body), requestId, order))
            == Meaning(r, Lookup(r.headers, REQUEST_ID, requestId))
  {
    hide WithHeaders, WithHeader, Pseudo, Regular, GoodLine, GoodName, GoodValue, Adds, Meaning;
    var s := Sent(RequestLine(r.verb, r.path, r.version), r.headers, r.body);
    var start := Pseudo(s) + [Pair(REQUEST_ID, requestId)];
    RebuildStart(s, requestId);
    WithHeadersConcat(BLANK, start, Regular(r.headers, order));
    RegularAdds(Rebuild(start), r.headers, order);
    SchemeIsNotNamed(r);
    AddsMeaning(r, requestId, order, Rebuild(HeaderPairs(s, requestId, order)));
  }

  lemma SchemeIsNotNamed(r: HTTPRequest)
    requires WellFormed(r)
    ensures ":scheme" !in r.headers
  {
    hide GoodLine;
    if ":scheme" in r.headers { NotPseudo(":scheme"); }
  }

  /** Printing a well formed request, re-reading it, turning it into header pairs and rebuilding it at
      the agent, in any header order on both sides, keeps its meaning under the request id exactly when
      the request carries no other id of its own. */
  lemma TranslationKeepsMeaning(r: HTTPRequest, requestId: string, printed: seq<string>, order: seq<string>)
    requires WellFormed(r) && Enumerates(printed, r.headers.Keys) && Enumerates(order, r.headers.Keys)
    ensures Reread(Print(r, printed)).headers == r.headers
    ensures var pairs := HeaderPairs(Reread(Print(r, printed)), requestId, order);
            && Rebuild(pairs) == Meaning(r, Lookup(r.headers, REQUEST_ID, requestId))
            && (Rebuild(pairs) == Meaning(r, requestId) <==>
                  ("x-tunnel-request-id" in r.headers ==> r.headers["x-tunnel-request-id"] == requestId))
  {
    hide WellFormed, Print, Parse, Reread, HeaderPairs, Rebuild;
    PrintedParses(r, printed);
    PrintIsNotEmpty(r, printed);
    RereadAgrees(Print(r, printed));
    PairsRebuild(r, requestId, order);
  }

  lemma PrintIsNotEmpty(r: HTTPRequest, order: seq<string>)
    requires forall k :: k in order ==> k in r.headers
    ensures Print(r, order) != ""
  {
    hide PrintHeaders;
  }
}
