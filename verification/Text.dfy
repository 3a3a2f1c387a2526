/** Scanning of text the way C++ streams and strings do it. */
module Text {

  /** Characters that separate words when reading from a stream. */
  const SPACES: set<char> := {' ', '\t', '\n', '\r', '\U{000B}', '\U{000C}'}
  /** Characters trimmed from the ends of a header value. */
  const BLANKS: set<char> := {' ', '\t'}

  predicate Avoids(s: string, stop: set<char>) {
    forall i :: 0 <= i < |s| ==> s[i] !in stop
  }

  predicate AvoidsBefore(s: string, n: nat, stop: set<char>)
    requires n <= |s|
  {
    forall i :: 0 <= i < n ==> s[i] !in stop
  }

  /** Where the first of the given characters stands, or the length if there is none. */
  function Find(s: string, stop: set<char>): (n: nat)
    ensures n <= |s| && AvoidsBefore(s, n, stop) && (n < |s| ==> s[n] in stop)
  {
    if s == "" || s[0] in stop then 0 else 1 + Find(s[1..], stop)
  }

  lemma FindIsFirst(s: string, stop: set<char>, n: nat)
    requires n <= |s| && AvoidsBefore(s, n, stop) && (n < |s| ==> s[n] in stop)
    ensures Find(s, stop) == n
  {
    hide Find;
  }

  lemma FindAt(t: string, u: string, stop: set<char>)
    requires Avoids(t, stop) && (u == "" || u[0] in stop)
    ensures Find(t + u, stop) == |t|
  {
    FindIsFirst(t + u, stop, |t|);
  }

  // ----- lines -----

  function Line(s: string): (line: string)
    ensures Avoids(line, {'\n'})
  {
    s[..Find(s, {'\n'})]
  }

  function AfterLine(s: string): (rest: string)
    ensures s != "" ==> |rest| < |s|
  {
    var n := Find(s, {'\n'});
    if n == |s| then "" else s[n + 1..]
  }

  lemma LineOf(t: string, u: string)
    requires Avoids(t, {'\n'})
    ensures Line(t + "\n" + u) == t && AfterLine(t + "\n" + u) == u
  {
    var s := t + "\n" + u;
    assert s == t + ("\n" + u);
    FindAt(t, "\n" + u, {'\n'});
  }

  // ----- words -----

  function SkipSpaces(s: string): (t: string)
    ensures |t| <= |s| && (t == "" || t[0] !in SPACES)
  {
    if s != "" && s[0] in SPACES then SkipSpaces(s[1..]) else s
  }

  predicate IsWord(w: string) {
    Avoids(w, SPACES)
  }

  function Word(s: string): (w: string)
    ensures IsWord(w)
  {
    var t := SkipSpaces(s);
    t[..Find(t, SPACES)]
  }

  function AfterWord(s: string): string {
    var t := SkipSpaces(s);
    t[Find(t, SPACES)..]
  }

  /** A word at the start of a text is read up to the space that follows it. */
  lemma WordOf(w: string, u: string)
    requires IsWord(w) && w != "" && (u == "" || u[0] in SPACES)
    ensures Word(w + u) == w && AfterWord(w + u) == u
  {
    assert (w + u)[0] == w[0];
    FindAt(w, u, SPACES);
  }

  lemma WordAfterSpace(s: string)
    ensures Word(" " + s) == Word(s) && AfterWord(" " + s) == AfterWord(s)
  {
    assert (" " + s)[1..] == s;
  }

  // ----- trimming -----

  function TrimLeft(s: string): string {
    if s != "" && s[0] in BLANKS then TrimLeft(s[1..]) else s
  }

  function TrimRight(s: string): string {
    if s != "" && s[|s| - 1] in BLANKS then TrimRight(s[..|s| - 1]) else s
  }

  function Trim(s: string): string {
    TrimRight(TrimLeft(s))
  }

  predicate Trimmed(s: string) {
    s == "" || (s[0] !in BLANKS && s[|s| - 1] !in BLANKS)
  }

  lemma {:induction false} TrimLeftResult(s: string, stop: set<char>)
    ensures var t := TrimLeft(s); t == "" || t[0] !in BLANKS
    ensures Avoids(s, stop) ==> Avoids(TrimLeft(s), stop)
  {
    if s != "" && s[0] in BLANKS { TrimLeftResult(s[1..], stop); }
  }

  lemma {:induction false} TrimRightResult(s: string, stop: set<char>)
    requires s == "" || s[0] !in BLANKS
    ensures Trimmed(TrimRight(s))
    ensures Avoids(s, stop) ==> Avoids(TrimRight(s), stop)
  {
    if s != "" && s[|s| - 1] in BLANKS { TrimRightResult(s[..|s| - 1], stop); }
  }

  lemma TrimResult(s: string, stop: set<char>)
    ensures Trimmed(Trim(s)) && (Avoids(s, stop) ==> Avoids(Trim(s), stop))
  {
    TrimLeftResult(s, stop);
    TrimRightResult(TrimLeft(s), stop);
  }

  lemma TrimAfterSpace(v: string)
    requires Trimmed(v)
    ensures Trim(" " + v) == v
  {
    assert (" " + v)[1..] == v;
    assert TrimLeft(v) == v;
    assert TrimRight(v) == v;
  }

  // ----- case -----

  function LowerChar(c: char): char {
    if 'A' <= c <= 'Z' then c + ' ' else c
  }

  function Lower(s: string): (t: string)
    ensures |t| == |s| && forall i :: 0 <= i < |s| ==> t[i] == LowerChar(s[i])
  {
    seq(|s|, i requires 0 <= i < |s| => LowerChar(s[i]))
  }

  lemma LowerTwice(s: string)
    ensures Lower(Lower(s)) == Lower(s)
  {
  }
}
