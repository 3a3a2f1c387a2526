/** Requests as HTTP/1.1 text: the parser the proxy runs on a client's bytes, and the printer it uses
    to hand the request on. */
module HttpText {
  import opened Wrappers
  import opened Text

  datatype HTTPRequest = HTTPRequest(
    verb: string, path: string, version: string, host: string, clientIp: string,
    headers: map<string, string>, body: string)

  /** The headers read so far, and the host among them. */
  datatype Head = Head(headers: map<string, string>, host: string)

  function DropReturn(line: string): string {
    if line != "" && line[|line| - 1] == '\r' then line[..|line| - 1] else line
  }

  function With(h: Head, name: string, value: string): Head {
    Head(h.headers[name := value], if name == "host" then value else h.host)
  }

  /** The effect of one header line; a line without a colon is skipped. */
  function WithLine(h: Head, line: string): Head {
    var l := DropReturn(line);
    var colon := Find(l, {':'});
    if colon == |l| then h else With(h, Lower(l[..colon]), Trim(l[colon + 1..]))
  }

  predicate EndsHead(line: string) {
    line == "" || line == "\r"
  }

  /** The headers up to the first empty line, and the text after it. */
  function ReadHead(s: string, h: Head): (r: (Head, string))
    decreases |s|
  {
    if s == "" then (h, "")
    else if EndsHead(Line(s)) then (h, AfterLine(s))
    else ReadHead(AfterLine(s), WithLine(h, Line(s)))
  }

  datatype RequestLine = RequestLine(verb: string, path: string, version: string)

  function Words(line: string): RequestLine {
    var rest := AfterWord(line);
    RequestLine(Word(line), Word(rest), Word(AfterWord(rest)))
  }

  function Parse(buffer: string): Option<HTTPRequest> {
    if buffer == "" then None
    else
      var first := Words(DropReturn(Line(buffer)));
      var (head, body) := ReadHead(AfterLine(buffer), Head(map[], ""));
      Some(HTTPRequest(first.verb, first.path, first.version, head.host, "", head.headers, body))
  }

  method ReadHeaderLine(text: string, headers: map<string, string>, host: string)
    returns (headers': map<string, string>, host': string)
    ensures Head(headers', host') == WithLine(Head(headers, host), text)
  {
    headers', host' := headers, host;
    var line := text;
    if line != "" && line[|line| - 1] == '\r' {
      line := line[..|line| - 1];
    }
    var colon := Find(line, {':'});
    if colon == |line| {
      return;
    }
    var name, value := Lower(line[..colon]), Trim(line[colon + 1..]);
    headers' := headers'[name := value];
    if name == "host" {
      host' := value;
    }
  }

  method ReadHeaders(text: string) returns (headers: map<string, string>, host: string, rest: string)
    ensures (Head(headers, host), rest) == ReadHead(text, Head(map[], ""))
  {
    hide WithLine, Line, AfterLine;
    headers, host, rest := map[], "", text;
    while rest != ""
      invariant ReadHead(rest, Head(headers, host)) == ReadHead(text, Head(map[], ""))
      decreases |rest|
    {
      var line := Line(rest);
      if line == "" || line == "\r" {
        rest := AfterLine(rest);
        return;
      }
      headers, host := ReadHeaderLine(line, headers, host);
      rest := AfterLine(rest);
    }
  }

  method ParseRequest(buffer: string) returns (request: Option<HTTPRequest>)
    ensures request == Parse(buffer)
  {
    if buffer == "" {
      return None;
    }
    var line := Line(buffer);
    if line != "" && line[|line| - 1] == '\r' {
      line := line[..|line| - 1];
    }
    var first := Words(line);
    var headers, host, body := ReadHeaders(AfterLine(buffer));
    return Some(HTTPRequest(first.verb, first.path, first.version, host, "", headers, body));
  }

  // ----- printing -----

  /** An order in which a table's entries may be visited. */
  ghost predicate Enumerates(order: seq<string>, keys: set<string>) {
    && (forall i, j :: 0 <= i < j < |order| ==> order[i] != order[j])
    && (forall k :: k in order <==> k in keys)
  }

  function HeaderLine(name: string, value: string): string {
    name + ": " + value + "\r\n"
  }

  function PrintHeaders(headers: map<string, string>, order: seq<string>): string
    requires forall k :: k in order ==> k in headers
  {
    if order == [] then ""
    else PrintHeaders(headers, order[..|order| - 1]) + HeaderLine(order[|order| - 1], headers[order[|order| - 1]])
  }

  function Print(r: HTTPRequest, order: seq<string>): string
    requires forall k :: k in order ==> k in r.headers
  {
    r.verb + " " + r.path + " " + r.version + "\r\n" + PrintHeaders(r.headers, order) + "\r\n" + r.body
  }

  /** The table is visited in an order the caller cannot know. */
  method ToString(r: HTTPRequest) returns (text: string)
    ensures exists order :: Enumerates(order, r.headers.Keys) && text == Print(r, order)
  {
    text := r.verb + " " + r.path + " " + r.version + "\r\n";
    ghost var start := text;
    var left := r.headers.Keys;
    ghost var order := [];
    while left != {}
      invariant left <= r.headers.Keys && Enumerates(order, r.headers.Keys - left)
      invariant text == start + PrintHeaders(r.headers, order)
      decreases |left|
    {
      var name :| name in left;
      text := text + (name + ": " + r.headers[name] + "\r\n");
      assert (order + [name])[..|order|] == order;
      left, order := left - {name}, order + [name];
    }
    text := text + "\r\n";
    text := text + r.body;
    assert Enumerates(order, r.headers.Keys) && text == Print(r, order);
  }

  // ----- what survives printing and parsing -----

  predicate GoodName(name: string) {
    Avoids(name, {':', '\n'}) && Lower(name) == name
  }

  predicate GoodValue(value: string) {
    Avoids(value, {'\n'}) && Trimmed(value)
  }

  predicate GoodLine(l: RequestLine) {
    && IsWord(l.verb) && IsWord(l.path) && IsWord(l.version)
    && (l.verb == "" ==> l.path == "") && (l.path == "" ==> l.version == "")
  }

  predicate GoodHead(h: Head) {
    && (forall name :: name in h.headers ==> GoodName(name) && GoodValue(h.headers[name]))
    && h.host == (if "host" in h.headers then h.headers["host"] else "")
  }

  /** Requests that the text form can carry. */
  predicate WellFormed(r: HTTPRequest) {
    GoodLine(RequestLine(r.verb, r.path, r.version)) && GoodHead(Head(r.headers, r.host))
  }

  lemma NoWordLeft(s: string)
    ensures Word(s) == "" ==> AfterWord(s) == ""
    ensures Word("") == ""
  {
  }

  lemma WordsAreGood(line: string)
    ensures GoodLine(Words(line))
  {
    NoWordLeft(line);
    NoWordLeft(AfterWord(line));
    hide Word, AfterWord, SkipSpaces, IsWord;
  }

  lemma LineKeepsGood(h: Head, line: string)
    requires GoodHead(h) && Avoids(line, {'\n'})
    ensures GoodHead(WithLine(h, line))
  {
    var l := DropReturn(line);
    var colon := Find(l, {':'});
    if colon < |l| {
      LowerTwice(l[..colon]);
      TrimResult(l[colon + 1..], {'\n'});
      assert GoodName(Lower(l[..colon]));
      hide GoodName, Trim, Trimmed, Lower;
    }
  }

  lemma {:induction false} ReadHeadIsGood(s: string, h: Head)
    requires GoodHead(h)
    ensures GoodHead(ReadHead(s, h).0)
    decreases |s|
  {
    hide GoodHead, WithLine;
    if s != "" && !EndsHead(Line(s)) {
      LineKeepsGood(h, Line(s));
      ReadHeadIsGood(AfterLine(s), WithLine(h, Line(s)));
    }
  }

  /** Whatever the bytes, what the parser returns is well formed. */
  lemma ParsedIsWellFormed(buffer: string)
    ensures Parse(buffer).None? <==> buffer == ""
    ensures buffer != "" ==> WellFormed(Parse(buffer).value) && Parse(buffer).value.clientIp == ""
  {
    hide ReadHead, Words, GoodLine, Line, AfterLine;
    if buffer != "" {
      WordsAreGood(DropReturn(Line(buffer)));
      ReadHeadIsGood(AfterLine(buffer), Head(map[], ""));
    }
  }

  lemma WordsOfPrinted(l: RequestLine)
    requires GoodLine(l)
    ensures Words(l.verb + " " + l.path + " " + l.version) == l
  {
    var line := l.verb + " " + l.path + " " + l.version;
    assert line == l.verb + (" " + (l.path + (" " + l.version)));
    LastWord(l.version);
    NextWord(l.path, " " + l.version);
    NextWord(l.verb, " " + (l.path + (" " + l.version)));
    WordAfterSpace(l.path + (" " + l.version));
    WordAfterSpace(l.version);
    hide Word, AfterWord, SkipSpaces;
  }

  lemma NextWord(w: string, u: string)
    requires IsWord(w) && u != "" && u[0] in SPACES
    ensures w != "" ==> Word(w + u) == w && AfterWord(w + u) == u
    ensures w == "" ==> w + u == u
  {
    if w != "" { WordOf(w, u); }
  }

  lemma LastWord(w: string)
    requires IsWord(w)
    ensures Word(w) == w && Word("") == ""
  {
    assert w + "" == w;
    if w != "" { WordOf(w, ""); }
  }

  lemma WithPrintedLine(h: Head, name: string, value: string)
    requires GoodName(name) && GoodValue(value)
    ensures WithLine(h, name + ": " + value + "\r") == With(h, name, value)
  {
    var line := name + ": " + value + "\r";
    var l := name + ": " + value;
    assert DropReturn(line) == l;
    assert l == name + (": " + value);
    FindAt(name, ": " + value, {':'});
    assert l[..|name|] == name && l[|name| + 1..] == " " + value;
    TrimAfterSpace(value);
    hide Find, Trim;
  }

  lemma ReadPrintedLine(h: Head, name: string, value: string, tail: string)
    requires GoodName(name) && GoodValue(value)
    ensures ReadHead(HeaderLine(name, value) + tail, h) == ReadHead(tail, With(h, name, value))
  {
    hide Line, AfterLine, WithLine, With;
    var line, s := name + ": " + value + "\r", HeaderLine(name, value) + tail;
    assert s == line + "\n" + tail;
    assert |line| >= 3 && Avoids(line, {'\n'});
    LineOf(line, tail);
    WithPrintedLine(h, name, value);
  }

  lemma ReadBlankLine(h: Head, body: string)
    ensures ReadHead("\r\n" + body, h) == (h, body)
  {
    hide Line, AfterLine;
    assert "\r\n" + body == "\r" + "\n" + body;
    LineOf("\r", body);
  }

  /** The head after the named entries of a table. */
  function WithAll(h: Head, headers: map<string, string>, order: seq<string>): Head
    requires forall k :: k in order ==> k in headers
  {
    if order == [] then h
    else With(WithAll(h, headers, order[..|order| - 1]), order[|order| - 1], headers[order[|order| - 1]])
  }

  lemma {:induction false} ReadPrintedHeaders(h: Head, headers: map<string, string>, order: seq<string>, tail: string)
    requires forall k :: k in order ==> k in headers && GoodName(k) && GoodValue(headers[k])
    ensures ReadHead(PrintHeaders(headers, order) + tail, h) == ReadHead(tail, WithAll(h, headers, order))
    decreases |order|
  {
    hide ReadHead, GoodName, GoodValue, HeaderLine;
    if order == [] {
      assert "" + tail == tail;
    } else {
      var front, name := order[..|order| - 1], order[|order| - 1];
      var line := HeaderLine(name, headers[name]);
      assert PrintHeaders(headers, order) + tail == PrintHeaders(headers, front) + (line + tail);
      ReadPrintedHeaders(h, headers, front, line + tail);
      ReadPrintedLine(WithAll(h, headers, front), name, headers[name], tail);
    }
  }

  lemma {:induction false} WithAllEntries(headers: map<string, string>, order: seq<string>)
    requires forall k :: k in order ==> k in headers
    ensures var h := WithAll(Head(map[], ""), headers, order);
            && (forall k :: k in h.headers <==> k in order)
            && (forall k :: k in h.headers ==> h.headers[k] == headers[k])
            && h.host == (if "host" in order then headers["host"] else "")
    decreases |order|
  {
    if order != [] {
      var front, name := order[..|order| - 1], order[|order| - 1];
      assert order == front + [name];
      WithAllEntries(headers, front);
      assert forall k :: k in order <==> k in front || k == name;
    }
  }

  /** Visiting every entry of a well formed head, in any order, rebuilds it. */
  lemma WithEveryEntry(h: Head, order: seq<string>)
    requires GoodHead(h) && Enumerates(order, h.headers.Keys)
    ensures WithAll(Head(map[], ""), h.headers, order) == h
  {
    WithAllEntries(h.headers, order);
    hide GoodName, GoodValue, WithAll;
    assert WithAll(Head(map[], ""), h.headers, order).headers == h.headers;
  }

  lemma PrintStartsWithLine(r: HTTPRequest, order: seq<string>)
    requires GoodLine(RequestLine(r.verb, r.path, r.version)) && forall k :: k in order ==> k in r.headers
    ensures Print(r, order) != ""
    ensures DropReturn(Line(Print(r, order))) == r.verb + " " + r.path + " " + r.version
    ensures AfterLine(Print(r, order)) == PrintHeaders(r.headers, order) + ("\r\n" + r.body)
  {
    hide Line, AfterLine, PrintHeaders;
    var line := r.verb + " " + r.path + " " + r.version + "\r";
    var rest := PrintHeaders(r.headers, order) + ("\r\n" + r.body);
    assert Print(r, order) == line + "\n" + rest;
    assert Avoids(line, {'\n'});
    LineOf(line, rest);
    assert line[..|line| - 1] == r.verb + " " + r.path + " " + r.version;
  }

  /** Printing a well formed request, with its headers in any order, and parsing the text gives the
      request back; only the client address, which is not printed, is lost. */
  lemma PrintedParses(r: HTTPRequest, order: seq<string>)
    requires WellFormed(r) && Enumerates(order, r.headers.Keys)
    ensures Parse(Print(r, order)) == Some(r.(clientIp := ""))
  {
    hide GoodLine, Line, AfterLine, ReadHead, Words, PrintHeaders, DropReturn, Print, WithAll;
    var h, none := Head(r.headers, r.host), Head(map[], "");
    PrintStartsWithLine(r, order);
    WordsOfPrinted(RequestLine(r.verb, r.path, r.version));
    ReadPrintedHeaders(none, r.headers, order, "\r\n" + r.body);
    WithEveryEntry(h, order);
    ReadBlankLine(h, r.body);
  }

  /** Printing and parsing gives a request back if and only if it is well formed. */
  lemma PrintParseRoundTrip(r: HTTPRequest, order: seq<string>)
    requires Enumerates(order, r.headers.Keys)
    ensures Parse(Print(r, order)) == Some(r.(clientIp := "")) <==> WellFormed(r)
  {
    hide Parse, Print, GoodLine, GoodHead;
    if WellFormed(r) {
      PrintedParses(r, order);
    }
    ParsedIsWellFormed(Print(r, order));
  }

  /** One round of parsing and printing normalises any text: parsing the result changes nothing more. */
  lemma ParsePrintParse(buffer: string, order: seq<string>)
    requires buffer != "" && Enumerates(order, Parse(buffer).value.headers.Keys)
    ensures Parse(Print(Parse(buffer).value, order)) == Parse(buffer)
  {
    hide Parse, Print, GoodLine, GoodHead;
    ParsedIsWellFormed(buffer);
    PrintedParses(Parse(buffer).value, order);
  }
}
