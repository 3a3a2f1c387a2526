/** What the request parser reads from a text written line by line, whatever the case of its header
    names, the blanks around its values and the ends of its lines. */
module HttpParsing {
  import opened Wrappers
  import opened Sequences
  import opened Text
  import opened HttpText
  import opened HttpTranslation

  // ----- case -----

  predicate IsUpper(c: char) {
    'A' <= c <= 'Z'
  }

  /** The same character up to the case of an ASCII letter. */
  predicate SameLetter(c: char, d: char) {
    || c == d
    || (IsUpper(c) && d as int == c as int + 32)
    || (IsUpper(d) && c as int == d as int + 32)
  }

  predicate SameName(a: string, b: string) {
    |a| == |b| && forall i :: 0 <= i < |a| ==> SameLetter(a[i], b[i])
  }

  lemma FoldedLetters(c: char, d: char)
    ensures LowerChar(c) == LowerChar(d) <==> SameLetter(c, d)
    ensures !IsUpper(c) ==> LowerChar(c) == c
    ensures !IsUpper(LowerChar(c))
  {
  }

  /** Two names are filed under the same key exactly when they differ at most in the case of letters, and
      the key is the one of these names without upper-case letters. */
  lemma NamesFold(a: string, b: string)
    ensures Lower(a) == Lower(b) <==> SameName(a, b)
    ensures SameName(a, Lower(a)) && forall i :: 0 <= i < |a| ==> !IsUpper(Lower(a)[i])
    ensures (forall i :: 0 <= i < |a| ==> !IsUpper(a[i])) ==> Lower(a) == a
  {
    hide LowerChar, SameLetter;
    forall i | 0 <= i < |a| ensures SameLetter(a[i], Lower(a)[i]) && !IsUpper(Lower(a)[i]) {
      FoldedLetters(a[i], a[i]);
      FoldedTwice(a[i]);
      FoldedLetters(a[i], LowerChar(a[i]));
    }
    if |a| == |b| {
      forall i | 0 <= i < |a| ensures LowerChar(a[i]) == LowerChar(b[i]) <==> SameLetter(a[i], b[i]) {
        FoldedLetters(a[i], b[i]);
      }
      if Lower(a) == Lower(b) {
        forall i | 0 <= i < |a| ensures SameLetter(a[i], b[i]) {
          assert Lower(a)[i] == Lower(b)[i];
        }
      }
    }
    if forall i :: 0 <= i < |a| ==> !IsUpper(a[i]) {
      forall i | 0 <= i < |a| ensures Lower(a)[i] == a[i] {
        FoldedLetters(a[i], a[i]);
      }
    }
  }

  lemma FoldedTwice(c: char)
    ensures LowerChar(LowerChar(c)) == LowerChar(c)
  {
  }

  // ----- blanks -----

  predicate IsBlank(s: string) {
    forall i :: 0 <= i < |s| ==> s[i] == ' ' || s[i] == '\t'
  }

  lemma {:induction false} TrimLeftBlank(before: string, s: string)
    requires IsBlank(before) && (s == "" || (s[0] != ' ' && s[0] != '\t'))
    ensures TrimLeft(before + s) == s
  {
    if before == "" {
      assert before + s == s;
    } else {
      assert (before + s)[1..] == before[1..] + s;
      TrimLeftBlank(before[1..], s);
    }
  }

  lemma {:induction false} TrimRightBlank(s: string, after: string)
    requires IsBlank(after) && (s == "" || (s[|s| - 1] != ' ' && s[|s| - 1] != '\t'))
    ensures TrimRight(s + after) == s
  {
    if after == "" {
      assert s + after == s;
    } else {
      var front := after[..|after| - 1];
      assert (s + after)[..|s + after| - 1] == s + front;
      assert (s + after)[|s + after| - 1] == after[|after| - 1];
      TrimRightBlank(s, front);
    }
  }

  lemma {:induction false} AllBlankTrims(s: string)
    requires IsBlank(s)
    ensures TrimLeft(s) == ""
  {
    if s != "" { AllBlankTrims(s[1..]); }
  }

  /** A value without outer blanks, and nothing but it, survives the trimming of blanks around it. */
  lemma TrimsTo(before: string, value: string, after: string)
    requires IsBlank(before) && IsBlank(after)
    requires value == "" || (value[0] !in " \t" && value[|value| - 1] !in " \t")
    ensures Trim(before + value + after) == value
  {
    if value == "" {
      assert before + value + after == before + after;
      AllBlankTrims(before + after);
    } else {
      assert before + value + after == before + (value + after);
      assert (value + after)[0] == value[0];
      TrimLeftBlank(before, value + after);
      TrimRightBlank(value, after);
    }
  }

  // ----- header lines -----

  /** A header line as written: a field with blanks around its value, or a line without a colon. `cr` says
      whether it ends in CR LF or in LF alone. */
  datatype Written =
    | Field(name: string, before: string, value: string, after: string, cr: bool)
    | Junk(text: string, cr: bool)

  predicate NoReturn(s: string) {
    s == "" || s[|s| - 1] != '\r'
  }

  predicate Proper(l: Written) {
    match l
    case Field(name, before, value, after, cr) =>
      && Avoids(name, {':', '\n'}) && Avoids(value, {'\n'}) && IsBlank(before) && IsBlank(after)
      && (value == "" || (value[0] !in " \t" && value[|value| - 1] !in " \t"))
      && (cr || NoReturn(value + after))
    case Junk(text, cr) => text != "" && Avoids(text, {':', '\n'}) && NoReturn(text)
  }

  function Content(l: Written): string {
    match l
    case Field(name, before, value, after, _) => name + ":" + (before + value + after)
    case Junk(text, _) => text
  }

  function Spelled(l: Written): string {
    Content(l) + (if l.cr then "\r\n" else "\n")
  }

  function SpelledAll(lines: seq<Written>): string {
    if lines == [] then "" else SpelledAll(lines[..|lines| - 1]) + Spelled(lines[|lines| - 1])
  }

  /** The last value of each name. */
  function Fields(lines: seq<Written>): map<string, string> {
    if lines == [] then map[]
    else
      var before, l := Fields(lines[..|lines| - 1]), lines[|lines| - 1];
      if l.Field? then before[Lower(l.name) := l.value] else before
  }

  lemma DropsReturn(l: Written)
    requires Proper(l)
    ensures DropReturn(Content(l) + (if l.cr then "\r" else "")) == Content(l)
  {
    hide Avoids, IsBlank;
    if l.cr {
      assert (Content(l) + "\r")[..|Content(l)|] == Content(l);
    } else {
      assert Content(l) + "" == Content(l);
      if l.Field? && l.value + l.after != "" {
        var tail := l.value + l.after;
        assert Content(l) == (l.name + ":" + l.before) + tail;
        assert Content(l)[|Content(l)| - 1] == tail[|tail| - 1];
      } else if l.Field? {
        BlankIsNoReturn(l.before);
        assert Content(l)[|Content(l)| - 1] == (if l.before == "" then ':' else l.before[|l.before| - 1]);
      }
    }
  }

  lemma BlankIsNoReturn(s: string)
    requires IsBlank(s)
    ensures NoReturn(s) && Avoids(s, {'\n'})
  {
  }

  lemma WithWritten(h: Head, l: Written)
    requires Proper(l)
    ensures WithLine(h, Content(l) + (if l.cr then "\r" else ""))
            == if l.Field? then With(h, Lower(l.name), l.value) else h
  {
    hide Trim, Lower, With;
    if l.Field? { BlankIsNoReturn(l.before); }
    DropsReturn(l);
    if l.Field? {
      var rest := l.before + l.value + l.after;
      assert Content(l) == l.name + (":" + rest);
      FindAt(l.name, ":" + rest, {':'});
      assert Content(l)[..|l.name|] == l.name && Content(l)[|l.name| + 1..] == rest;
      TrimsTo(l.before, l.value, l.after);
    } else {
      assert l.text + "" == l.text;
      FindAt(l.text, "", {':'});
    }
  }

  lemma ReadWritten(h: Head, l: Written, tail: string)
    requires Proper(l)
    ensures ReadHead(Spelled(l) + tail, h)
            == ReadHead(tail, if l.Field? then With(h, Lower(l.name), l.value) else h)
  {
    hide Line, AfterLine, WithLine, With, Lower;
    var line := Content(l) + (if l.cr then "\r" else "");
    assert Spelled(l) + tail == line + "\n" + tail;
    if l.Field? {
      BlankIsNoReturn(l.before);
      BlankIsNoReturn(l.after);
    }
    assert Avoids(line, {'\n'});
    assert !EndsHead(line) by { IsNoEnd(l); }
    LineOf(line, tail);
    WithWritten(h, l);
  }

  lemma IsNoEnd(l: Written)
    requires Proper(l)
    ensures !EndsHead(Content(l) + (if l.cr then "\r" else ""))
  {
    var line := Content(l) + (if l.cr then "\r" else "");
    if l.Field? {
      assert line[|l.name|] == ':';
    } else {
      assert line[0] == l.text[0];
      if |l.text| > 1 { assert |line| > 1; }
    }
  }

  function Apply(h: Head, lines: seq<Written>): Head {
    if lines == [] then h
    else
      var before, l := Apply(h, lines[..|lines| - 1]), lines[|lines| - 1];
      if l.Field? then With(before, Lower(l.name), l.value) else before
  }

  lemma {:induction false} ReadAllWritten(h: Head, lines: seq<Written>, tail: string)
    requires forall l :: l in lines ==> Proper(l)
    ensures ReadHead(SpelledAll(lines) + tail, h) == ReadHead(tail, Apply(h, lines))
    decreases |lines|
  {
    hide ReadHead, Proper, Spelled;
    if lines == [] {
      assert "" + tail == tail;
    } else {
      var front, last := lines[..|lines| - 1], lines[|lines| - 1];
      Associative(SpelledAll(front), Spelled(last), tail);
      ReadAllWritten(h, front, Spelled(last) + tail);
      ReadWritten(Apply(h, front), last, tail);
    }
  }

  lemma {:induction false} AppliesFields(lines: seq<Written>)
    ensures var h := Apply(Head(map[], ""), lines);
            && h.headers == Fields(lines)
            && h.host == (if "host" in Fields(lines) then Fields(lines)["host"] else "")
  {
    hide Lower;
    if lines != [] { AppliesFields(lines[..|lines| - 1]); }
  }

  // ----- the request line -----

  /** White space within a line. */
  predicate IsGap(s: string) {
    forall i :: 0 <= i < |s| ==> s[i] in " \t\r\U{000B}\U{000C}"
  }

  predicate IsToken(s: string) {
    s != "" && forall i :: 0 <= i < |s| ==> s[i] !in " \t\n\r\U{000B}\U{000C}"
  }

  lemma {:induction false} GapsAreSkipped(gap: string, s: string)
    requires IsGap(gap)
    ensures SkipSpaces(gap + s) == SkipSpaces(s)
  {
    if gap == "" {
      assert gap + s == s;
    } else {
      assert (gap + s)[1..] == gap[1..] + s;
      GapsAreSkipped(gap[1..], s);
    }
  }

  lemma TokenRead(gap: string, token: string, rest: string)
    requires IsGap(gap) && IsToken(token) && (rest == "" || rest[0] in " \t\n\r\U{000B}\U{000C}")
    ensures Word(gap + token + rest) == token && AfterWord(gap + token + rest) == rest
  {
    assert gap + token + rest == gap + (token + rest);
    GapsAreSkipped(gap, token + rest);
    WordOf(token, rest);
    hide SkipSpaces;
    assert SkipSpaces(gap + (token + rest)) == SkipSpaces(token + rest);
  }

  /** A request line with gaps before its three words and anything after a gap behind them. */
  predicate ProperFirst(lead: string, g: string, k: string, l: RequestLine, rest: string) {
    && IsGap(lead) && IsGap(g) && g != "" && IsGap(k) && k != ""
    && IsToken(l.verb) && IsToken(l.path) && IsToken(l.version)
    && Avoids(rest, {'\n'}) && (rest == "" || rest[0] in " \t\r\U{000B}\U{000C}")
  }

  function FirstLine(lead: string, g: string, k: string, l: RequestLine, rest: string): string {
    lead + l.verb + (g + l.path + (k + l.version + rest))
  }

  lemma FirstLineRead(lead: string, g: string, k: string, l: RequestLine, rest: string)
    requires ProperFirst(lead, g, k, l, rest)
    ensures var line := FirstLine(lead, g, k, l, rest); Words(DropReturn(line)) == l && Avoids(line, {'\n'})
  {
    var third := k + l.version + rest;
    var second := g + l.path + third;
    assert third[0] == k[0] && second[0] == g[0];
    FirstLineAvoids(lead, g, k, l, rest);
    hide Word, AfterWord, SkipSpaces, DropReturn, Avoids;
    TokenRead(lead, l.verb, second);
    TokenRead(g, l.path, third);
    TokenRead(k, l.version, rest);
    WordsIgnoreReturn(FirstLine(lead, g, k, l, rest));
    hide IsGap, IsToken;
  }

  lemma GapAvoids(s: string)
    requires IsGap(s) || IsToken(s)
    ensures Avoids(s, {'\n'})
  {
  }

  lemma AvoidsConcat(a: string, b: string)
    requires Avoids(a, {'\n'}) && Avoids(b, {'\n'})
    ensures Avoids(a + b, {'\n'})
  {
  }

  lemma FirstLineAvoids(lead: string, g: string, k: string, l: RequestLine, rest: string)
    requires ProperFirst(lead, g, k, l, rest)
    ensures Avoids(FirstLine(lead, g, k, l, rest), {'\n'})
  {
    hide IsGap, IsToken, Avoids;
    GapAvoids(lead);
    GapAvoids(g);
    GapAvoids(k);
    GapAvoids(l.verb);
    GapAvoids(l.path);
    GapAvoids(l.version);
    var third, second := k + l.version + rest, g + l.path + (k + l.version + rest);
    AvoidsConcat(k, l.version);
    AvoidsConcat(k + l.version, rest);
    AvoidsConcat(g, l.path);
    AvoidsConcat(g + l.path, third);
    AvoidsConcat(lead, l.verb);
    AvoidsConcat(lead + l.verb, second);
  }

  // ----- the whole request -----

  /** The parser reads exactly what is written: the words of the first line; for every name, in any case,
      the last value written under it, without the blanks around it; the host among them; and the text
      after the empty line. Lines without a colon have no effect. */
  lemma ParseReads(lead: string, g: string, k: string, l: RequestLine, rest: string,
                   lines: seq<Written>, cr: bool, body: string)
    requires ProperFirst(lead, g, k, l, rest) && forall x :: x in lines ==> Proper(x)
    ensures var text := FirstLine(lead, g, k, l, rest) + "\n"
                        + (SpelledAll(lines) + ((if cr then "\r\n" else "\n") + body));
            Parse(text) == Some(HTTPRequest(l.verb, l.path, l.version,
                                            if "host" in Fields(lines) then Fields(lines)["host"] else "",
                                            "", Fields(lines), body))
  {
    hide Line, AfterLine, ReadHead, Words, DropReturn, FirstLine, Proper, ProperFirst;
    var first, end := FirstLine(lead, g, k, l, rest), (if cr then "\r\n" else "\n") + body;
    FirstLineRead(lead, g, k, l, rest);
    LineOf(first, SpelledAll(lines) + end);
    assert first + "\n" + (SpelledAll(lines) + end) != "";
    ReadAllWritten(Head(map[], ""), lines, end);
    EndRead(Apply(Head(map[], ""), lines), cr, body);
    AppliesFields(lines);
  }

  lemma EndRead(h: Head, cr: bool, body: string)
    ensures ReadHead((if cr then "\r\n" else "\n") + body, h) == (h, body)
  {
    hide Line, AfterLine;
    if cr {
      ReadBlankLine(h, body);
    } else {
      assert "" + "\n" + body == "\n" + body;
      LineOf("", body);
    }
  }

  /** A host header is found whatever the case of its name. */
  lemma HostIsRead(l: RequestLine, name: string, value: string, body: string)
    requires IsToken(l.verb) && IsToken(l.path) && IsToken(l.version)
    requires SameName(name, "host") && GoodValue(value)
    ensures var text := l.verb + " " + l.path + " " + l.version + "\r\n" + name + ": " + value + "\r\n\r\n" + body;
            Parse(text).Some? && Parse(text).value.host == value
            && Parse(text).value.headers == map["host" := value]
  {
    hide Parse, IsToken, Proper;
    var line := Field(name, " ", value, "", true);
    assert Proper(line) by { HostLineIsProper(name, value); }
    assert ProperFirst("", " ", " ", l, "\r") by { PlainFirst(l); }
    NamesFold(name, "host");
    NamesFold("host", "host");
    var lines, none: seq<Written> := [line], [];
    assert lines[..0] == none && Fields(lines) == map["host" := value];
    ParseReads("", " ", " ", l, "\r", lines, true, body);
    HostText(l, name, value, body);
  }

  lemma HostText(l: RequestLine, name: string, value: string, body: string)
    ensures FirstLine("", " ", " ", l, "\r") + "\n"
            + (SpelledAll([Field(name, " ", value, "", true)]) + ("\r\n" + body))
            == l.verb + " " + l.path + " " + l.version + "\r\n" + name + ": " + value + "\r\n\r\n" + body
  {
    var line := Field(name, " ", value, "", true);
    var lines, none: seq<Written> := [line], [];
    assert lines[..0] == none && SpelledAll(lines) == "" + Spelled(line);
    HostSpelled(name, value);
    PlainFirstLine(l);
    hide FirstLine, Spelled, SpelledAll;
    var first, field := l.verb + " " + l.path + " " + l.version, name + ": " + value;
    assert "" + Spelled(line) == Spelled(line);
    JoinEnds(first, field, body);
    JoinParts(first + "\r\n", name, ": ", value, "\r\n\r\n", body);
  }

  lemma HostSpelled(name: string, value: string)
    ensures Spelled(Field(name, " ", value, "", true)) == name + ": " + value + "\r\n"
  {
    assert " " + value + "" == " " + value;
    assert name + ":" + (" " + value) == name + ": " + value;
  }

  lemma PlainFirstLine(l: RequestLine)
    ensures FirstLine("", " ", " ", l, "\r") == l.verb + " " + l.path + " " + l.version + "\r"
  {
    assert "" + l.verb == l.verb;
    Associative(l.verb, " " + l.path, " " + l.version + "\r");
    Associative(l.verb, " ", l.path);
    Associative(l.verb + " " + l.path, " " + l.version, "\r");
    Associative(l.verb + " " + l.path, " ", l.version);
  }

  lemma JoinEnds(first: string, field: string, body: string)
    ensures first + "\r" + "\n" + ((field + "\r\n") + ("\r\n" + body))
            == first + "\r\n" + (field + ("\r\n\r\n" + body))
  {
    Associative(first, "\r", "\n");
    Associative(field, "\r\n", "\r\n" + body);
    Associative("\r\n", "\r\n", body);
  }

  lemma JoinParts(a: string, b: string, c: string, d: string, e: string, f: string)
    ensures a + ((b + c + d) + (e + f)) == a + b + c + d + e + f
  {
  }

  lemma HostLineIsProper(name: string, value: string)
    requires SameName(name, "host") && GoodValue(value)
    ensures Proper(Field(name, " ", value, "", true))
  {
    forall i | 0 <= i < |name| ensures name[i] !in {':', '\n'} {
      assert SameLetter(name[i], "host"[i]);
    }
  }

  lemma PlainFirst(l: RequestLine)
    requires IsToken(l.verb) && IsToken(l.path) && IsToken(l.version)
    ensures ProperFirst("", " ", " ", l, "\r")
  {
  }
}
