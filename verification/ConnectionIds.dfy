/** Textual connection ids: 32 lower-case hex digits with hyphens after bytes 3, 5, 7 and 9. */
module ConnectionIds {
  import opened Wrappers
  import opened Bytes
  import opened TcpProtocol

  function Hex(v: int): char
    requires 0 <= v < 16
  {
    if v < 10 then ('0' as int + v) as char else ('a' as int + v - 10) as char
  }

  function HexPair(b: byte): string {
    [Hex(b / 16), Hex(b % 16)]
  }

  predicate HyphenAfter(i: int) {
    i == 3 || i == 5 || i == 7 || i == 9
  }

  function HyphenIf(here: bool): string {
    if here then "-" else ""
  }

  /** The text of the last bytes of an id. */
  function TextFrom(rest: seq<byte>): string
    requires |rest| <= 16
  {
    if rest == [] then ""
    else HexPair(rest[0]) + HyphenIf(HyphenAfter(16 - |rest|)) + TextFrom(rest[1..])
  }

  function Text(id: Uuid): string {
    TextFrom(id)
  }

  lemma Regroup(a: string, b: string, c: string, d: string)
    ensures a + (b + c + d) == a + b + c + d
  {
  }

  /** The server's printer: a hyphen after the byte. */
  method ConnectionIdToString(id: Uuid) returns (text: string)
    ensures text == Text(id)
  {
    text := "";
    for i := 0 to 16
      invariant text + TextFrom(id[i..]) == Text(id)
    {
      assert id[i..][0] == id[i] && id[i..][1..] == id[i + 1..];
      ghost var pair, hyphen, rest := HexPair(id[i]), HyphenIf(HyphenAfter(i)), TextFrom(id[i + 1..]);
      Regroup(text, pair, hyphen, rest);
      text := text + HexPair(id[i]);
      if HyphenAfter(i) {
        text := text + "-";
      } else {
        assert hyphen == "" && text + hyphen == text;
      }
    }
  }

  /** The agent's printer: a hyphen before the byte. */
  method AgentConnectionIdToString(id: Uuid) returns (text: string)
    ensures text == Text(id)
  {
    text := "";
    for i := 0 to 16
      invariant text + HyphenIf(HyphenAfter(i - 1)) + TextFrom(id[i..]) == Text(id)
    {
      assert id[i..][0] == id[i] && id[i..][1..] == id[i + 1..];
      ghost var before, pair := HyphenIf(HyphenAfter(i - 1)), HexPair(id[i]);
      ghost var after, rest := HyphenIf(HyphenAfter(i)), TextFrom(id[i + 1..]);
      Regroup(text + before, pair, after, rest);
      if i == 4 || i == 6 || i == 8 || i == 10 {
        text := text + "-";
      } else {
        assert before == "" && text + before == text;
      }
      text := text + HexPair(id[i]);
    }
  }

  // ----- parsing -----

  function StripHyphens(s: string): string {
    if s == "" then ""
    else (if s[0] != '-' then [s[0]] else "") + StripHyphens(s[1..])
  }

  function Digit(c: char): Option<int> {
    if '0' <= c <= '9' then Some(c as int - '0' as int)
    else if 'a' <= c <= 'f' then Some(c as int - 'a' as int + 10)
    else if 'A' <= c <= 'F' then Some(c as int - 'A' as int + 10)
    else None
  }

  predicate IsSpace(c: char) {
    c == ' ' || '\t' <= c <= '\r'
  }

  /** `std::stoi` in base 16 on two characters: leading blanks and a sign are skipped, digits are
      read up to the first other character, and no digit at all throws. */
  function Stoi2(c: char, d: char): Option<int> {
    if Digit(c).Some? then
      Some(if Digit(d).Some? then 16 * Digit(c).value + Digit(d).value else Digit(c).value)
    else if IsSpace(c) || c == '+' then Digit(d)
    else if c == '-' then (if Digit(d).Some? then Some(-Digit(d).value) else None)
    else None
  }

  /** The bytes spelled by pairs of characters; conversion to uint8_t wraps. */
  function ParsePairs(cleaned: string): (r: Option<seq<byte>>)
    requires |cleaned| % 2 == 0
    ensures r.Some? ==> 2 * |r.value| == |cleaned|
  {
    if cleaned == "" then Some([])
    else
      match Stoi2(cleaned[0], cleaned[1])
      case None => None
      case Some(v) => Prepend(v % 0x100, ParsePairs(cleaned[2..]))
  }

  function Prepend(b: byte, rest: Option<seq<byte>>): Option<seq<byte>> {
    match rest
    case None => None
    case Some(bytes) => Some([b] + bytes)
  }

  function Parse(s: string): (id: Option<seq<byte>>)
    ensures id.Some? ==> |id.value| == 16
  {
    var cleaned := StripHyphens(s);
    if |cleaned| != 32 then None else ParsePairs(cleaned)
  }

  lemma StripDistributes(s: string, t: string)
    ensures StripHyphens(s + t) == StripHyphens(s) + StripHyphens(t)
  {
    if s == "" {
      assert s + t == t;
    } else {
      assert (s + t)[1..] == s[1..] + t;
      StripDistributes(s[1..], t);
    }
  }

  lemma StripNext(s: string, i: nat)
    requires i < |s|
    ensures StripHyphens(s[..i + 1]) == StripHyphens(s[..i]) + (if s[i] != '-' then [s[i]] else "")
  {
    assert s[..i + 1] == s[..i] + [s[i]];
    StripDistributes(s[..i], [s[i]]);
    assert [s[i]][1..] == "";
  }

  method RemoveHyphens(s: string) returns (cleaned: string)
    ensures cleaned == StripHyphens(s)
  {
    cleaned := "";
    for i := 0 to |s|
      invariant cleaned == StripHyphens(s[..i])
    {
      StripNext(s, i);
      if s[i] != '-' {
        cleaned := cleaned + [s[i]];
      }
    }
    assert s[..|s|] == s;
  }

  function Join(a: Option<seq<byte>>, b: Option<seq<byte>>): Option<seq<byte>> {
    if a.Some? && b.Some? then Some(a.value + b.value) else None
  }

  lemma {:induction false} PairsSplit(s: string, t: string)
    requires |s| % 2 == 0 && |t| % 2 == 0
    ensures |s + t| % 2 == 0 && ParsePairs(s + t) == Join(ParsePairs(s), ParsePairs(t))
  {
    hide Stoi2, Digit, IsSpace;
    if s == "" {
      assert s + t == t;
      assert ParsePairs(t).Some? ==> [] + ParsePairs(t).value == ParsePairs(t).value;
    } else {
      assert (s + t)[2..] == s[2..] + t && (s + t)[0] == s[0] && (s + t)[1] == s[1];
      PairsSplit(s[2..], t);
      var v, p, q := Stoi2(s[0], s[1]), ParsePairs(s[2..]), ParsePairs(t);
      if v.Some? && p.Some? && q.Some? {
        assert [v.value % 0x100] + (p.value + q.value) == [v.value % 0x100] + p.value + q.value;
      }
    }
  }

  lemma PairOf(c: char, d: char)
    ensures ParsePairs([c, d]) == (if Stoi2(c, d).Some? then Some([Stoi2(c, d).value % 0x100]) else None)
  {
    assert [c, d][2..] == "" && ParsePairs("") == Some([]);
    if Stoi2(c, d).Some? {
      var b: byte := Stoi2(c, d).value % 0x100;
      assert [b] + [] == [b];
    }
  }

  lemma PairsNext(s: string, i: nat)
    requires |s| == 32 && i < 16
    ensures ParsePairs(s[..2 * i + 2]) ==
            (if Stoi2(s[2 * i], s[2 * i + 1]).Some?
             then Join(ParsePairs(s[..2 * i]), Some([Stoi2(s[2 * i], s[2 * i + 1]).value % 0x100])) else None)
    ensures ParsePairs(s[..2 * i + 2]).None? ==> ParsePairs(s).None?
  {
    var pair := [s[2 * i], s[2 * i + 1]];
    assert s[..2 * i + 2] == s[..2 * i] + pair;
    PairsSplit(s[..2 * i], pair);
    PairOf(s[2 * i], s[2 * i + 1]);
    assert s == s[..2 * i + 2] + s[2 * i + 2..];
    PairsSplit(s[..2 * i + 2], s[2 * i + 2..]);
  }

  method StringToConnectionId(s: string) returns (id: Option<seq<byte>>)
    ensures id == Parse(s)
  {
    var cleaned := RemoveHyphens(s);
    if |cleaned| != 32 {
      return None;
    }
    var bytes: seq<byte> := [];
    for i := 0 to 16
      invariant ParsePairs(cleaned[..2 * i]) == Some(bytes)
    {
      PairsNext(cleaned, i);
      var v := Stoi2(cleaned[2 * i], cleaned[2 * i + 1]);
      if v.None? {
        return None;
      }
      bytes := bytes + [v.value % 0x100];
    }
    assert cleaned[..32] == cleaned;
    return Some(bytes);
  }

  // ----- printing and parsing undo each other -----

  lemma HexPairRoundTrip(b: byte)
    ensures Stoi2(HexPair(b)[0], HexPair(b)[1]) == Some(b)
    ensures StripHyphens(HexPair(b)) == HexPair(b)
  {
    HexDigit(b / 16);
    HexDigit(b % 16);
    assert HexPair(b)[1..] == [Hex(b % 16)];
    assert StripHyphens(HexPair(b)[1..]) == [Hex(b % 16)] + StripHyphens([]);
  }

  lemma HexDigit(v: int)
    requires 0 <= v < 16
    ensures Digit(Hex(v)) == Some(v) && Hex(v) != '-'
  {
  }

  /** The digit pairs of some bytes. */
  function Digits(b: seq<byte>): string {
    if b == [] then "" else HexPair(b[0]) + Digits(b[1..])
  }

  lemma {:induction false} StripText(rest: seq<byte>)
    requires |rest| <= 16
    ensures StripHyphens(TextFrom(rest)) == Digits(rest)
  {
    if rest != [] {
      StripText(rest[1..]);
      HexPairRoundTrip(rest[0]);
      var hyphen := HyphenIf(HyphenAfter(16 - |rest|));
      assert StripHyphens(hyphen) == "";
      StripDistributes(HexPair(rest[0]) + hyphen, TextFrom(rest[1..]));
      StripDistributes(HexPair(rest[0]), hyphen);
    }
  }

  lemma {:induction false} ParseDigits(b: seq<byte>)
    ensures |Digits(b)| == 2 * |b| && ParsePairs(Digits(b)) == Some(b)
  {
    if b != [] {
      ParseDigits(b[1..]);
      HexPairRoundTrip(b[0]);
      assert Digits(b)[2..] == Digits(b[1..]);
      assert Digits(b)[0] == HexPair(b[0])[0] && Digits(b)[1] == HexPair(b[0])[1];
      assert b == [b[0]] + b[1..];
    }
  }

  /** Parsing the printed form of any id succeeds and returns the id. */
  lemma ParseInvertsText(id: Uuid)
    ensures Parse(Text(id)) == Some(id)
  {
    StripText(id);
    ParseDigits(id);
  }

  lemma TextIsInjective(a: Uuid, b: Uuid)
    ensures Text(a) == Text(b) <==> a == b
  {
    ParseInvertsText(a);
    ParseInvertsText(b);
  }

  /** A text is the printed form of an id exactly when printing what it parses to gives it back. */
  lemma TextInvertsParse(s: string)
    ensures (exists id: Uuid :: s == Text(id)) <==> (Parse(s).Some? && Text(Parse(s).value) == s)
  {
    if id: Uuid :| s == Text(id) {
      ParseInvertsText(id);
    }
  }

  // ----- the id inside a server-sent CLOSE -----

  /** `send_tcp_close` fills the 16 id bytes with the first characters of the textual id. */
  function CloseFrameId(text: string): Uuid {
    seq(16, i requires 0 <= i < 16 => if i < |text| then text[i] as int % 0x100 else 0)
  }

  /** The only id whose CLOSE frame names it: the text 33333333-3333-33, which spells itself. */
  predicate SelfNaming(id: Uuid) {
    forall i | 0 <= i < 16 :: id[i] == if i == 8 || i == 13 then 0x2d else 0x33
  }

  /** Where the digits of byte k start. */
  function Position(k: nat): nat {
    2 * k + (if k >= 4 then 1 else 0) + (if k >= 6 then 1 else 0)
    + (if k >= 8 then 1 else 0) + (if k >= 10 then 1 else 0)
  }

  lemma {:induction false} SuffixAt(id: Uuid, k: nat)
    requires k <= 16
    ensures Position(k) <= |Text(id)| && Text(id)[Position(k)..] == TextFrom(id[k..])
  {
    if k == 0 {
      assert id[0..] == id;
    } else {
      SuffixAt(id, k - 1);
      SuffixNext(id, k - 1);
    }
  }

  lemma SuffixNext(id: Uuid, k: nat)
    requires k < 16
    requires Position(k) <= |Text(id)| && Text(id)[Position(k)..] == TextFrom(id[k..])
    ensures Position(k + 1) <= |Text(id)| && Text(id)[Position(k + 1)..] == TextFrom(id[k + 1..])
    ensures Text(id)[Position(k)] == Hex(id[k] / 16) && Text(id)[Position(k) + 1] == Hex(id[k] % 16)
    ensures HyphenAfter(k) ==> Position(k) + 2 < |Text(id)| && Text(id)[Position(k) + 2] == '-'
  {
    var rest, t, p := id[k..], Text(id)[Position(k)..], Position(k);
    assert rest[0] == id[k] && rest[1..] == id[k + 1..];
    var hyphen := HyphenIf(HyphenAfter(k));
    assert t == HexPair(id[k]) + hyphen + TextFrom(id[k + 1..]);
    assert t[0] == Text(id)[p] && t[1] == Text(id)[p + 1];
    assert t[2 + |hyphen|..] == TextFrom(id[k + 1..]);
    assert Text(id)[p + 2 + |hyphen|..] == t[2 + |hyphen|..];
  }

  function HexCode(v: int): byte
    requires 0 <= v < 16
  {
    if v < 10 then 0x30 + v else 0x61 + v - 10
  }

  /** Bytes k's digits, as characters, are the bytes at its position. */
  predicate Spells(id: Uuid, k: nat)
    requires k < 7
  {
    id[Position(k)] == HexCode(id[k] / 16) && id[Position(k) + 1] == HexCode(id[k] % 16)
  }

  predicate SpellsItself(id: Uuid) {
    && Spells(id, 0) && Spells(id, 1) && Spells(id, 2) && Spells(id, 3) && id[8] == 0x2d
    && Spells(id, 4) && Spells(id, 5) && id[13] == 0x2d && Spells(id, 6)
  }

  lemma DigitsSpelled(id: Uuid, k: nat)
    requires k < 7
    ensures var c := CloseFrameId(Text(id));
            && c[Position(k)] == HexCode(id[k] / 16) && c[Position(k) + 1] == HexCode(id[k] % 16)
            && (k == 3 || k == 5 ==> c[Position(k) + 2] == 0x2d)
  {
    SuffixAt(id, k);
    SuffixNext(id, k);
  }

  lemma CloseFrameIdSpelled(id: Uuid)
    ensures CloseFrameId(Text(id)) == id <==> SpellsItself(id)
  {
    hide CloseFrameId, HexCode, Text;
    var c := CloseFrameId(Text(id));
    DigitsSpelled(id, 0);
    DigitsSpelled(id, 1);
    DigitsSpelled(id, 2);
    DigitsSpelled(id, 3);
    DigitsSpelled(id, 4);
    DigitsSpelled(id, 5);
    DigitsSpelled(id, 6);
    if SpellsItself(id) {
      forall i | 0 <= i < 16 ensures c[i] == id[i] {
        if i < 8 { assert i == Position(i / 2) + i % 2; }
      }
    }
  }

  lemma OwnHighDigit(b: byte)
    ensures b == HexCode(b / 16) <==> b == 0x33
    ensures b == 0x33 ==> HexCode(b / 16) == 0x33 && HexCode(b % 16) == 0x33
  {
  }

  lemma SpellsThrees(id: Uuid, k: nat)
    requires k < 7 && id[k] == 0x33
    ensures Spells(id, k) <==> id[Position(k)] == 0x33 && id[Position(k) + 1] == 0x33
  {
    OwnHighDigit(id[k]);
  }

  /** A server-sent CLOSE names the connection it is meant for only when its id is the self-naming one:
      byte 0 is the code of its own high digit, which only '3' satisfies, and each digit then
      fixes a later byte. */
  lemma CloseFrameNamesItsConnection(id: Uuid)
    ensures CloseFrameId(Text(id)) == id <==> SelfNaming(id)
  {
    CloseFrameIdSpelled(id);
    if SpellsItself(id) {
      SpellsOnlyThrees(id);
    }
    if SelfNaming(id) {
      ThreesSpell(id);
    }
  }

  lemma ThreesSpell(id: Uuid)
    requires SelfNaming(id)
    ensures SpellsItself(id)
  {
    SpellsThrees(id, 0);
    SpellsThrees(id, 1);
    SpellsThrees(id, 2);
    SpellsThrees(id, 3);
    SpellsThrees(id, 4);
    SpellsThrees(id, 5);
    SpellsThrees(id, 6);
  }

  lemma SpellsOnlyThrees(id: Uuid)
    requires SpellsItself(id)
    ensures SelfNaming(id)
  {
    OwnHighDigit(id[0]);
    SpellsThrees(id, 0);
    SpellsThrees(id, 1);
    SpellsThrees(id, 2);
    SpellsThrees(id, 3);
    SpellsThrees(id, 4);
    SpellsThrees(id, 5);
    SpellsThrees(id, 6);
  }

  // ----- the printed form, character by character -----

  /** The digit, in either case, of a value. */
  predicate IsDigitOf(c: char, v: int) {
    0 <= v < 16 && (c == "0123456789abcdef"[v] || c == "0123456789ABCDEF"[v])
  }

  predicate IsNoDigit(c: char) {
    forall v {:trigger IsDigitOf(c, v)} :: 0 <= v < 16 ==> !IsDigitOf(c, v)
  }

  lemma LowerDigit(v: int)
    requires 0 <= v < 16
    ensures Hex(v) == "0123456789abcdef"[v]
  {
  }

  lemma UpperDigit(v: int)
    requires 0 <= v < 16
    ensures "0123456789ABCDEF"[v] == if v < 10 then ('0' as int + v) as char else ('A' as int + v - 10) as char
  {
  }

  /** The text is 36 characters: hyphens at 8, 13, 18 and 23, and for each byte its two lower-case
      hexadecimal digits, the high one first. */
  lemma TextIsSpelled(id: Uuid, k: nat)
    requires k < 16
    ensures |Text(id)| == 36 && Position(k) + 1 < 36
    ensures Text(id)[Position(k)] == "0123456789abcdef"[id[k] / 16]
    ensures Text(id)[Position(k) + 1] == "0123456789abcdef"[id[k] % 16]
    ensures Text(id)[8] == '-' && Text(id)[13] == '-' && Text(id)[18] == '-' && Text(id)[23] == '-'
  {
    hide Text, Hex;
    SuffixAt(id, 16);
    assert id[16..] == [];
    SuffixAt(id, k);
    SuffixNext(id, k);
    LowerDigit(id[k] / 16);
    LowerDigit(id[k] % 16);
    HyphenAt(id, 3);
    HyphenAt(id, 5);
    HyphenAt(id, 7);
    HyphenAt(id, 9);
  }

  lemma HyphenAt(id: Uuid, k: nat)
    requires k == 3 || k == 5 || k == 7 || k == 9
    ensures Position(k) + 2 < |Text(id)| && Text(id)[Position(k) + 2] == '-'
  {
    hide Text;
    SuffixAt(id, k);
    SuffixNext(id, k);
  }

  /** What a pair of characters is read as, by the rules of `std::stoi` in base 16. */
  lemma PairIsRead(c: char, d: char)
    ensures forall v, u :: IsDigitOf(c, v) && IsDigitOf(d, u) ==> Stoi2(c, d) == Some(16 * v + u)
    ensures forall v :: IsDigitOf(c, v) && IsNoDigit(d) ==> Stoi2(c, d) == Some(v)
    ensures forall u :: c in " \t\n\U{000B}\U{000C}\r+" && IsDigitOf(d, u) ==> Stoi2(c, d) == Some(u)
    ensures forall u :: c == '-' && IsDigitOf(d, u) ==> Stoi2(c, d) == Some(-u)
    ensures IsNoDigit(c) && (IsNoDigit(d) || c !in " \t\n\U{000B}\U{000C}\r+-") ==> Stoi2(c, d) == None
  {
    hide Stoi2, IsDigitOf, Digit, IsSpace;
    forall v | IsDigitOf(c, v) ensures Digit(c) == Some(v) && 0 <= v < 16 { DigitIsRead(c, v); }
    forall u | IsDigitOf(d, u) ensures Digit(d) == Some(u) && 0 <= u < 16 { DigitIsRead(d, u); }
    NoDigitIsRead(c);
    NoDigitIsRead(d);
    PairByDigits(c, d);
  }

  lemma DigitIsRead(c: char, v: int)
    requires IsDigitOf(c, v)
    ensures Digit(c) == Some(v) && 0 <= v < 16
  {
    LowerDigit(v);
    UpperDigit(v);
    if c == "0123456789abcdef"[v] { HexDigit(v); }
  }

  lemma NoDigitIsRead(c: char)
    ensures IsNoDigit(c) ==> Digit(c) == None
  {
    if Digit(c).Some? {
      var v := Digit(c).value;
      LowerDigit(v);
      UpperDigit(v);
      assert IsDigitOf(c, v);
    }
  }

  lemma PairByDigits(c: char, d: char)
    ensures Digit(c).Some? && Digit(d).Some? ==> Stoi2(c, d) == Some(16 * Digit(c).value + Digit(d).value)
    ensures Digit(c).Some? && Digit(d).None? ==> Stoi2(c, d) == Digit(c)
    ensures c in " \t\n\U{000B}\U{000C}\r+" && Digit(d).Some? ==> Stoi2(c, d) == Digit(d)
    ensures c == '-' && Digit(d).Some? ==> Stoi2(c, d) == Some(-Digit(d).value)
    ensures Digit(c).None? && (Digit(d).None? || c !in " \t\n\U{000B}\U{000C}\r+-") ==> Stoi2(c, d) == None
  {
    assert " \t\n\U{000B}\U{000C}\r+" == [' ', '\t', '\n', '\U{000B}', '\U{000C}', '\r', '+'];
    assert " \t\n\U{000B}\U{000C}\r+-" == [' ', '\t', '\n', '\U{000B}', '\U{000C}', '\r', '+', '-'];
  }

  /** Hyphens in a text to be parsed do not matter, wherever they stand. */
  lemma HyphensDoNotMatter(before: string, after: string)
    ensures Parse(before + "-" + after) == Parse(before + after)
  {
    StripDistributes(before + "-", after);
    StripDistributes(before, "-");
    StripDistributes(before, after);
    assert "-"[1..] == "";
    assert StripHyphens(before) + "" == StripHyphens(before);
  }

  lemma {:induction false} NothingToStrip(s: string)
    requires forall i :: 0 <= i < |s| ==> s[i] != '-'
    ensures StripHyphens(s) == s
  {
    if s != "" { NothingToStrip(s[1..]); }
  }

  lemma TwoDigits(c: char, d: char, b: byte)
    requires IsDigitOf(c, b / 16) && IsDigitOf(d, b % 16)
    ensures Stoi2(c, d) == Some(b)
  {
    DigitIsRead(c, b / 16);
    DigitIsRead(d, b % 16);
    hide Digit, IsDigitOf;
  }

  lemma {:induction false} PairsSpell(s: string, id: seq<byte>)
    requires |s| == 2 * |id|
    requires forall k :: 0 <= k < |id| ==> IsDigitOf(s[2 * k], id[k] / 16) && IsDigitOf(s[2 * k + 1], id[k] % 16)
    ensures ParsePairs(s) == Some(id)
  {
    hide Stoi2, IsDigitOf, Digit;
    if s != "" {
      forall k | 0 <= k < |id[1..]|
        ensures IsDigitOf(s[2..][2 * k], id[1..][k] / 16) && IsDigitOf(s[2..][2 * k + 1], id[1..][k] % 16)
      {
        assert s[2..][2 * k] == s[2 * (k + 1)] && s[2..][2 * k + 1] == s[2 * (k + 1) + 1] && id[1..][k] == id[k + 1];
      }
      PairsSpell(s[2..], id[1..]);
      assert IsDigitOf(s[2 * 0], id[0] / 16) && IsDigitOf(s[2 * 0 + 1], id[0] % 16);
      TwoDigits(s[0], s[1], id[0]);
      assert id == [id[0]] + id[1..];
    } else {
      assert id == [];
    }
  }

  /** Thirty-two digits, each in either case, are read as the id they spell. */
  lemma DigitsAreRead(s: string, id: Uuid)
    requires |s| == 32
    requires forall k :: 0 <= k < 16 ==> IsDigitOf(s[2 * k], id[k] / 16) && IsDigitOf(s[2 * k + 1], id[k] % 16)
    ensures Parse(s) == Some(id)
  {
    forall i | 0 <= i < |s| ensures s[i] != '-' {
      assert i == 2 * (i / 2) || i == 2 * (i / 2) + 1;
      assert IsDigitOf(s[2 * (i / 2)], id[i / 2] / 16) && IsDigitOf(s[2 * (i / 2) + 1], id[i / 2] % 16);
    }
    hide IsDigitOf;
    NothingToStrip(s);
    PairsSpell(s, id);
  }

  /** A text with another number of characters beside the hyphens is no id. */
  lemma WrongLengthIsRefused(s: string)
    requires (forall i :: 0 <= i < |s| ==> s[i] != '-') && |s| != 32
    ensures Parse(s) == None
  {
    NothingToStrip(s);
  }
}
