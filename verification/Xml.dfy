/** The XML output of gtest-all.cc, read back by the rules of XML 1.0: sections 2.4 and 2.7
    for content, 3.3.3 for attribute values, 4.1 and 4.6 for references.  A character is a byte. */
module Xml {
  import opened Options

  // ---------------------------------------------------------------- characters

  /** A byte as the C type char, which may be signed. */
  function CharValue(c: char, signed: bool): int {
    if signed && c as int >= 0x80 then c as int - 0x100 else c as int
  }

  predicate IsNormalizableWhitespace(c: char) {
    c as int == 0x9 || c as int == 0xA || c as int == 0xD
  }

  predicate IsValidXmlCharacter(c: char, signed: bool) {
    IsNormalizableWhitespace(c) || CharValue(c, signed) >= 0x20
  }

  predicate Bytes(s: string) {
    forall k :: 0 <= k < |s| ==> s[k] as int < 0x100
  }

  /** The valid characters of a string, in order. */
  function ValidOnly(s: string, signed: bool): string {
    if s == "" then ""
    else if IsValidXmlCharacter(s[0], signed) then [s[0]] + ValidOnly(s[1..], signed)
    else ValidOnly(s[1..], signed)
  }

  /** Nothing is lost exactly when every character is valid; where char is signed, that is
      ASCII without control characters other than tab, line feed and carriage return. */
  lemma {:induction false} NothingLostIff(s: string, signed: bool)
    requires Bytes(s)
    ensures ValidOnly(s, signed) == s <==>
      forall k :: 0 <= k < |s| ==>
        s[k] in {'\t', '\n', '\r'} || (0x20 <= s[k] as int && (signed ==> s[k] as int < 0x80))
    ensures |ValidOnly(s, signed)| <= |s|
  {
    if s != "" {
      NothingLostIff(s[1..], signed);
      assert s == [s[0]] + s[1..];
    }
  }

  method RemoveInvalidXmlCharacters(str: string, signed: bool) returns (output: string)
    ensures output == ValidOnly(str, signed)
  {
    output := "";
    assert str[0..] == str;
    for it := 0 to |str|
      invariant output + ValidOnly(str[it..], signed) == ValidOnly(str, signed)
    {
      ghost var rest := str[it..];
      assert rest[0] == str[it] && rest[1..] == str[it + 1..];
      if IsValidXmlCharacter(str[it], signed) {
        output := output + [str[it]];
      }
    }
  }

  // ---------------------------------------------------------------- escaping

  function HexDigit(d: int): char
    requires 0 <= d < 0x10
  {
    if d < 10 then '0' + d as char else 'A' + (d - 10) as char
  }

  function FormatByte(c: char): string
    requires c as int < 0x100
  {
    [HexDigit(c as int / 0x10), HexDigit(c as int % 0x10)]
  }

  /** What is written for one character. */
  function EscapedChar(c: char, isAttribute: bool, signed: bool): string
    requires c as int < 0x100
  {
    if c == '<' then "&lt;"
    else if c == '>' then "&gt;"
    else if c == '&' then "&amp;"
    else if c == '\'' then if isAttribute then "&apos;" else "'"
    else if c == '"' then if isAttribute then "&quot;" else "\""
    else if !IsValidXmlCharacter(c, signed) then ""
    else if isAttribute && IsNormalizableWhitespace(c) then "&#x" + FormatByte(c) + ";"
    else [c]
  }

  function Escaped(s: string, isAttribute: bool, signed: bool): string
    requires Bytes(s)
  {
    if s == "" then "" else EscapedChar(s[0], isAttribute, signed) + Escaped(s[1..], isAttribute, signed)
  }

  method EscapeXml(str: string, isAttribute: bool, signed: bool) returns (m: string)
    requires Bytes(str)
    ensures m == Escaped(str, isAttribute, signed)
  {
    m := "";
    assert str[0..] == str;
    for i := 0 to |str|
      invariant m + Escaped(str[i..], isAttribute, signed) == Escaped(str, isAttribute, signed)
    {
      EscapedNext(m, str, i, isAttribute, signed);
      var ch := str[i];
      var piece;
      match ch {
        case '<' => piece := "&lt;";
        case '>' => piece := "&gt;";
        case '&' => piece := "&amp;";
        case '\'' => piece := if isAttribute then "&apos;" else "'";
        case '"' => piece := if isAttribute then "&quot;" else "\"";
        case _ =>
          if IsValidXmlCharacter(ch, signed) {
            if isAttribute && IsNormalizableWhitespace(ch) {
              piece := "&#x" + FormatByte(ch) + ";";
            } else {
              piece := [ch];
            }
          } else {
            piece := "";
          }
      }
      m := m + piece;
    }
  }

  lemma {:induction false} EscapedNext(m: string, str: string, i: nat, isAttribute: bool, signed: bool)
    requires i < |str| && Bytes(str)
    ensures m + Escaped(str[i..], isAttribute, signed)
         == m + EscapedChar(str[i], isAttribute, signed) + Escaped(str[i + 1..], isAttribute, signed)
  {
    var rest := str[i..];
    assert rest[0] == str[i] && rest[1..] == str[i + 1..];
  }

  // ---------------------------------------------------------------- reading XML

  /** The first position from i on with c, or the end. */
  function Find(s: string, c: char, i: nat): (k: nat)
    requires i <= |s|
    ensures i <= k <= |s| && c !in s[i..k] && (k < |s| ==> s[k] == c)
    decreases |s| - i
  {
    if i == |s| || s[i] == c then i else
      var k := Find(s, c, i + 1);
      assert s[i..k] == [s[i]] + s[i + 1..k];
      k
  }

  function HexDigitValue(c: char): Option<int> {
    if '0' <= c <= '9' then Some(c as int - '0' as int)
    else if 'A' <= c <= 'F' then Some(c as int - 'A' as int + 10)
    else if 'a' <= c <= 'f' then Some(c as int - 'a' as int + 10)
    else None
  }

  /** The number that hexadecimal digits stand for. */
  function HexValue(s: string): Option<int>
    decreases |s|
  {
    if s == "" then None
    else
      var d := HexDigitValue(s[|s| - 1]);
      if d.None? then None
      else if |s| == 1 then d
      else
        var high := HexValue(s[..|s| - 1]);
        if high.None? then None else Some(high.value * 0x10 + d.value)
  }

  /** Char of section 2.2, byte by byte: those from 0x80 on are parts of characters. */
  predicate IsChar(c: char) {
    c == '\t' || c == '\n' || c == '\r' || c as int >= 0x20
  }

  predicate AllChars(s: string) {
    forall k :: 0 <= k < |s| ==> IsChar(s[k])
  }

  /** The text, if a document may hold it. */
  function Legal(s: string): Option<string> {
    if AllChars(s) then Some(s) else None
  }

  /** The character of a reference, by sections 4.1 and 4.6. */
  function Referred(name: string): Option<char> {
    if name == "lt" then Some('<')
    else if name == "gt" then Some('>')
    else if name == "amp" then Some('&')
    else if name == "apos" then Some('\'')
    else if name == "quot" then Some('"')
    else if |name| >= 2 && name[..2] == "#x" && HexValue(name[2..]).Some? && 0 <= HexValue(name[2..]).value < 0x80 then
      var c := HexValue(name[2..]).value as char;
      if IsChar(c) then Some(c) else None
    else None
  }

  function Joined(a: string, rest: Option<string>): Option<string> {
    if rest.Some? then Some(a + rest.value) else None
  }

  /** A literal text before the rest. */
  function After(a: string, rest: Option<string>): Option<string> {
    if AllChars(a) then Joined(a, rest) else None
  }

  predicate StartsWith(s: string, p: string) {
    |p| <= |s| && s[..|p|] == p
  }

  /** The value of an attribute written between quotes, by section 3.3.3; None when it is not
      well-formed. */
  function AttributeValue(s: string): Option<string>
    decreases |s|
  {
    if s == "" then Some("")
    else if s[0] == '<' || !IsChar(s[0]) then None
    else if s[0] == '&' then
      var end := Find(s, ';', 1);
      if end == |s| || Referred(s[1..end]).None? then None
      else Joined([Referred(s[1..end]).value], AttributeValue(s[end + 1..]))
    else Joined([if IsNormalizableWhitespace(s[0]) then ' ' else s[0]], AttributeValue(s[1..]))
  }

  const CDATA_START := "<![CDATA["
  const CDATA_END := "]]>"

  /** CDATA_END stands at position i. */
  predicate IsEnd(s: string, i: nat) {
    i + 3 <= |s| && s[i] == ']' && s[i + 1] == ']' && s[i + 2] == '>'
  }

  /** The first place of CDATA_END from i on, or the end. */
  function FindEnd(s: string, i: nat): (k: nat)
    requires i <= |s|
    ensures i <= k <= |s| && (k < |s| ==> IsEnd(s, k))
    ensures forall j: nat :: i <= j && IsEnd(s, j) ==> k <= j
    decreases |s| - i
  {
    if i == |s| || IsEnd(s, i) then i else FindEnd(s, i + 1)
  }

  /** The character data of content made of text, references and CDATA sections, by sections
      2.4 and 2.7; None when it is not well-formed. */
  function Content(s: string): Option<string>
    decreases |s|
  {
    if s == "" then Some("")
    else if StartsWith(s, CDATA_START) then
      var k := FindEnd(s, |CDATA_START|);
      if k == |s| then None else After(s[|CDATA_START|..k], Content(s[k + 3..]))
    else if s[0] == '<' || IsEnd(s, 0) || !IsChar(s[0]) then None
    else if s[0] == '&' then
      var end := Find(s, ';', 1);
      if end == |s| || Referred(s[1..end]).None? then None
      else Joined([Referred(s[1..end]).value], Content(s[end + 1..]))
    else Joined([s[0]], Content(s[1..]))
  }

  // ---------------------------------------------------------------- round trips

  lemma {:induction false} ReferenceEnds(text: string, name: string, rest: string)
    requires ';' !in name && text == "&" + name + ";"
    ensures var s := text + rest;
      && Find(s, ';', 1) == |name| + 1 && s[1..|name| + 1] == name && s[|name| + 2..] == rest && s[0] == '&'
  {
    var s := text + rest;
    assert s[1..|name| + 1] == name && s[|name| + 1] == ';';
  }

  lemma {:induction false} AttributeReads(text: string, name: string, c: char, rest: string)
    requires ';' !in name && text == "&" + name + ";" && Referred(name) == Some(c)
    ensures AttributeValue(text + rest) == Joined([c], AttributeValue(rest))
  {
    ReferenceEnds(text, name, rest);
  }

  lemma {:induction false} ContentReads(text: string, name: string, c: char, rest: string)
    requires ';' !in name && text == "&" + name + ";" && Referred(name) == Some(c)
    ensures Content(text + rest) == Joined([c], Content(rest))
  {
    ReferenceEnds(text, name, rest);
    assert |text + rest| >= 9 ==> (text + rest)[..9][0] == '&';
  }

  /** The name by which a character is referred to in an attribute value, if it is. */
  function Name(c: char): string
    requires c as int < 0x100
  {
    if c == '<' then "lt"
    else if c == '>' then "gt"
    else if c == '&' then "amp"
    else if c == '\'' then "apos"
    else if c == '"' then "quot"
    else if IsNormalizableWhitespace(c) then "#x" + FormatByte(c)
    else ""
  }

  lemma {:induction false} NamesRefer(c: char)
    requires c as int < 0x100 && Name(c) != ""
    ensures Referred(Name(c)) == Some(c) && ';' !in Name(c)
  {
    if IsNormalizableWhitespace(c) {
      WhitespaceReferred(c);
    }
  }

  lemma {:induction false} WhitespaceReferred(c: char)
    requires IsNormalizableWhitespace(c)
    ensures var name := "#x" + FormatByte(c);
      Referred(name) == Some(c) && ';' !in name
  {
    var d := FormatByte(c);
    assert ("#x" + d)[2..] == d && ("#x" + d)[..2] == "#x";
    assert d[..1] == "0" && HexValue("0") == Some(0);
    assert HexValue(d) == Some(c as int);
  }

  lemma {:induction false} EscapedAsName(c: char, isAttribute: bool, signed: bool)
    requires c as int < 0x100
    ensures EscapedChar(c, isAttribute, signed) ==
      if Name(c) != "" && (isAttribute || c in {'<', '>', '&'}) then "&" + Name(c) + ";"
      else if IsValidXmlCharacter(c, signed) then [c]
      else ""
  {
    if IsNormalizableWhitespace(c) {
      assert "&" + ("#x" + FormatByte(c)) + ";" == "&#x" + FormatByte(c) + ";";
    }
  }

  /** One escaped character of an attribute value is read back as itself, whatever follows. */
  lemma {:induction false} AttributeCharReads(c: char, signed: bool, rest: string)
    requires c as int < 0x100 && IsValidXmlCharacter(c, signed)
    ensures AttributeValue(EscapedChar(c, true, signed) + rest) == Joined([c], AttributeValue(rest))
  {
    EscapedAsName(c, true, signed);
    if Name(c) != "" {
      NamesRefer(c);
      AttributeReads(EscapedChar(c, true, signed), Name(c), c, rest);
    } else {
      assert ([c] + rest)[1..] == rest;
    }
  }

  /** Reading an escaped attribute value returns the string with its invalid characters
      removed. */
  lemma {:induction false} AttributeRoundTrip(s: string, signed: bool)
    requires Bytes(s)
    ensures AttributeValue(Escaped(s, true, signed)) == Some(ValidOnly(s, signed))
  {
    if s != "" {
      AttributeRoundTrip(s[1..], signed);
      if IsValidXmlCharacter(s[0], signed) {
        AttributeCharReads(s[0], signed, Escaped(s[1..], true, signed));
      } else {
        NothingWritten(s, true, signed);
      }
    }
  }

  lemma {:induction false} NothingWritten(s: string, isAttribute: bool, signed: bool)
    requires s != "" && Bytes(s) && !IsValidXmlCharacter(s[0], signed)
    ensures Escaped(s, isAttribute, signed) == Escaped(s[1..], isAttribute, signed)
  {
    assert EscapedChar(s[0], isAttribute, signed) == "";
  }

  predicate Safe(s: string, isAttribute: bool) {
    forall k :: 0 <= k < |s| ==>
      s[k] != '<' && s[k] != '>' && (isAttribute ==> s[k] != '"' && s[k] != '\'' && s[k] as int >= 0x20)
  }

  /** Nothing escaped opens a tag or ends a CDATA section; in an attribute value, nothing ends
      the attribute or is changed to a space. */
  lemma {:induction false} EscapedIsSafe(s: string, isAttribute: bool, signed: bool)
    requires Bytes(s)
    ensures Safe(Escaped(s, isAttribute, signed), isAttribute)
  {
    if s != "" {
      EscapedIsSafe(s[1..], isAttribute, signed);
      EscapedAsName(s[0], isAttribute, signed);
    }
  }

  lemma {:induction false} TextCharReads(c: char, signed: bool, rest: string)
    requires c as int < 0x100 && IsValidXmlCharacter(c, signed) && Safe(rest, false)
    ensures Content(EscapedChar(c, false, signed) + rest) == Joined([c], Content(rest))
  {
    EscapedAsName(c, false, signed);
    if c == '<' || c == '>' || c == '&' {
      NamesRefer(c);
      ContentReads(EscapedChar(c, false, signed), Name(c), c, rest);
    } else {
      PlainReads(c, rest);
    }
  }

  lemma {:induction false} PlainReads(c: char, rest: string)
    requires c != '<' && c != '&' && IsChar(c) && !(|rest| >= 2 && c == ']' && rest[0] == ']' && rest[1] == '>')
    ensures Content([c] + rest) == Joined([c], Content(rest))
  {
    var s := [c] + rest;
    assert s[1..] == rest && s[0] == c;
    assert |s| >= 9 ==> s[..9][0] == c;
  }

  /** Reading escaped text between tags returns the string with its invalid characters removed. */
  lemma {:induction false} TextRoundTrip(s: string, signed: bool)
    requires Bytes(s)
    ensures Content(Escaped(s, false, signed)) == Some(ValidOnly(s, signed))
  {
    if s != "" {
      TextRoundTrip(s[1..], signed);
      EscapedIsSafe(s[1..], false, signed);
      if IsValidXmlCharacter(s[0], signed) {
        TextCharReads(s[0], signed, Escaped(s[1..], false, signed));
      } else {
        NothingWritten(s, false, signed);
      }
    }
  }

  // ---------------------------------------------------------------- CDATA sections

  const CDATA_BREAK := "]]>]]&gt;<![CDATA["

  /** The data from i on with each CDATA_END split over two sections, and the last section ended. */
  function Sections(data: string, i: nat): string
    requires i <= |data|
    decreases |data| - i
  {
    var k := FindEnd(data, i);
    if k == |data| then data[i..] + CDATA_END else data[i..k] + CDATA_BREAK + Sections(data, k + 3)
  }

  /** strstr for CDATA_END. */
  method FindSegmentEnd(data: string, segment: nat) returns (k: nat)
    requires segment <= |data|
    ensures k == FindEnd(data, segment)
  {
    k := segment;
    while k < |data| && !IsEnd(data, k)
      invariant segment <= k <= |data| && FindEnd(data, k) == FindEnd(data, segment)
    {
      k := k + 1;
    }
  }

  lemma {:induction false} SectionWritten(stream: string, data: string, i: nat, k: nat)
    requires i <= k < |data| && k == FindEnd(data, i)
    ensures stream + Sections(data, i) == stream + data[i..k] + CDATA_BREAK + Sections(data, k + 3)
  {
    var (b, c, d) := (data[i..k], CDATA_BREAK, Sections(data, k + 3));
    assert stream + (b + c + d) == stream + b + c + d;
  }

  lemma {:induction false} LastWritten(stream: string, data: string, i: nat)
    requires i <= |data| && FindEnd(data, i) == |data|
    ensures stream + Sections(data, i) == stream + data[i..] + CDATA_END
  {
    assert stream + (data[i..] + CDATA_END) == stream + data[i..] + CDATA_END;
  }

  method OutputXmlCDataSection(stream: string, data: string) returns (stream': string)
    ensures stream' == stream + CDATA_START + Sections(data, 0)
  {
    var segment := 0;
    stream' := stream + CDATA_START;
    while true
      invariant segment <= |data|
      invariant stream' + Sections(data, segment) == stream + CDATA_START + Sections(data, 0)
      decreases |data| - segment
    {
      var nextSegment := FindSegmentEnd(data, segment);
      if nextSegment < |data| {
        SectionWritten(stream', data, segment, nextSegment);
        stream' := stream' + data[segment..nextSegment];
        stream' := stream' + CDATA_BREAK;
        segment := nextSegment + 3;
      } else {
        LastWritten(stream', data, segment);
        stream' := stream' + data[segment..];
        break;
      }
    }
    stream' := stream' + CDATA_END;
  }

  /** A section of text without CDATA_END in it is read as that text. */
  lemma {:induction false} SectionReads(s: string, text: string, rest: string)
    requires forall j: nat :: !IsEnd(text, j)
    requires s == CDATA_START + text + CDATA_END + rest
    ensures Content(s) == After(text, Content(rest))
  {
    SectionParts(s, text, rest);
    var n := 9 + |text|;
    var k := FindEnd(s, 9);
    if k < n {
      EarlyEnd(s, text, k);
    }
    assert k == n;
  }

  lemma {:induction false} SectionParts(s: string, text: string, rest: string)
    requires s == CDATA_START + text + CDATA_END + rest
    ensures var n := 9 + |text|;
      && n + 3 <= |s| && s[9..n] == text && s[n + 3..] == rest && IsEnd(s, n) && StartsWith(s, CDATA_START)
  {
    var n := 9 + |text|;
    assert s[n] == ']' && s[n + 1] == ']' && s[n + 2] == '>';
  }

  lemma {:induction false} EarlyEnd(s: string, text: string, k: nat)
    requires var n := 9 + |text|;
      n + 3 <= |s| && s[9..n] == text && s[n] == ']' && s[n + 1] == ']' && 9 <= k < n && IsEnd(s, k)
    ensures IsEnd(text, k - 9)
  {
    assert s[k + 2] == '>';
    assert text[k - 9] == s[k] && (k + 1 < 9 + |text| ==> text[k - 8] == s[k + 1]);
    assert k + 2 < 9 + |text|;
    assert text[k - 7] == s[k + 2];
  }

  /** The text between two sections is read as CDATA_END. */
  lemma {:induction false} BreakReads(s: string, rest: string)
    requires s == "]]&gt;" + rest
    ensures Content(s) == Joined("]]>", Content(rest))
  {
    var tail := "&gt;" + rest;
    GreaterReads(rest);
    assert tail[0] == '&';
    PlainReads(']', tail);
    PlainReads(']', [']'] + tail);
    BreakParts(rest);
    assert "]" + "]" == "]]" && "]]" + ">" == "]]>";
    JoinedTwice("]", "]", Content(tail));
    JoinedTwice("]]", ">", Content(rest));
  }

  lemma {:induction false} GreaterReads(rest: string)
    ensures Content("&gt;" + rest) == Joined(">", Content(rest))
  {
    ContentReads("&gt;", "gt", '>', rest);
  }

  lemma {:induction false} BreakParts(rest: string)
    ensures "]]&gt;" + rest == [']'] + ([']'] + ("&gt;" + rest))
  {
  }

  lemma {:induction false} JoinedTwice(a: string, b: string, rest: Option<string>)
    ensures Joined(a, Joined(b, rest)) == Joined(a + b, rest)
  {
    if rest.Some? {
      assert a + (b + rest.value) == a + b + rest.value;
    }
  }

  /** Legal texts are put together from legal parts. */
  lemma {:induction false} LegalConcat(a: string, b: string)
    ensures Legal(a + b) == After(a, Legal(b))
  {
    if AllChars(a + b) {
      assert forall k :: 0 <= k < |a| ==> a[k] == (a + b)[k];
      assert forall k :: 0 <= k < |b| ==> b[k] == (a + b)[|a| + k];
    }
  }

  /** The sections are read as the data, overlapping ends included, when all of it may stand in
      a document, and not at all otherwise. */
  lemma {:induction false} CDataRoundTrip(data: string, i: nat)
    requires i <= |data|
    ensures Content(CDATA_START + Sections(data, i)) == Legal(data[i..])
    decreases |data| - i
  {
    var k := FindEnd(data, i);
    if k == |data| {
      LastSectionReads(data, i);
    } else {
      CDataRoundTrip(data, k + 3);
      NoEndBefore(data, i, k);
      DataSplits(data, i, k);
      SectionAndBreakRead(Sections(data, i), data[i..k], Sections(data, k + 3), data[k + 3..], data[i..]);
    }
  }

  lemma {:induction false} LastSectionReads(data: string, i: nat)
    requires i <= |data| && FindEnd(data, i) == |data|
    ensures Content(CDATA_START + Sections(data, i)) == Legal(data[i..])
  {
    NoEndBefore(data, i, |data|);
    assert data[i..|data|] == data[i..];
    LastTextReads(data[i..]);
  }

  lemma {:induction false} LastTextReads(text: string)
    requires forall j: nat :: !IsEnd(text, j)
    ensures Content(CDATA_START + (text + CDATA_END)) == Legal(text)
  {
    assert CDATA_START + (text + CDATA_END) == CDATA_START + text + CDATA_END + "";
    SectionReads(CDATA_START + (text + CDATA_END), text, "");
    assert text + "" == text;
  }

  lemma {:induction false} SectionAndBreakRead(s: string, text: string, sections: string, after: string, whole: string)
    requires (forall j: nat :: !IsEnd(text, j)) && s == text + CDATA_BREAK + sections
    requires Content(CDATA_START + sections) == Legal(after) && whole == text + ("]]>" + after)
    ensures Content(CDATA_START + s) == Legal(whole)
  {
    var rest := CDATA_START + sections;
    BreakReads("]]&gt;" + rest, rest);
    BreakSplits(text, sections);
    SectionReads(CDATA_START + s, text, "]]&gt;" + rest);
    LegalConcat("]]>", after);
    LegalConcat(text, "]]>" + after);
  }

  lemma {:induction false} BreakSplits(text: string, rest: string)
    ensures CDATA_START + (text + CDATA_BREAK + rest)
         == CDATA_START + text + CDATA_END + ("]]&gt;" + (CDATA_START + rest))
  {
    assert CDATA_BREAK == CDATA_END + ("]]&gt;" + CDATA_START);
  }

  lemma {:induction false} DataSplits(data: string, i: nat, k: nat)
    requires i <= k && IsEnd(data, k)
    ensures data[i..] == data[i..k] + ("]]>" + data[k + 3..])
  {
  }

  lemma {:induction false} NoEndBefore(data: string, i: nat, k: nat)
    requires i <= k <= |data| && k == FindEnd(data, i)
    ensures forall j: nat :: !IsEnd(data[i..k], j)
  {
    forall j: nat ensures !IsEnd(data[i..k], j) {
      if IsEnd(data[i..k], j) {
        assert IsEnd(data, i + j);
      }
    }
  }

  // ---------------------------------------------------------------- ends of lines

  /** What a processor does to a whole document first, by section 2.11: every carriage return
      becomes a line feed, together with a line feed after it. */
  function EndOfLine(s: string): (r: string)
    ensures '\r' !in r && |r| <= |s|
    decreases |s|
  {
    if s == "" then ""
    else if s[0] != '\r' then [s[0]] + EndOfLine(s[1..])
    else "\n" + EndOfLine(if |s| > 1 && s[1] == '\n' then s[2..] else s[1..])
  }

  /** Only carriage returns are changed. */
  lemma {:induction false} EndOfLineKeepsIff(s: string)
    ensures EndOfLine(s) == s <==> '\r' !in s
    decreases |s|
  {
    if s != "" && s[0] != '\r' {
      EndOfLineKeepsIff(s[1..]);
      assert s == [s[0]] + s[1..];
    }
  }

  /** Two texts are translated one after the other unless they break a carriage return from
      its line feed. */
  lemma {:induction false} EndOfLineConcat(a: string, b: string)
    requires a == "" || b == "" || a[|a| - 1] != '\r' || b[0] != '\n'
    ensures EndOfLine(a + b) == EndOfLine(a) + EndOfLine(b)
    decreases |a|
  {
    if a == "" {
      assert a + b == b;
    } else {
      var n := if a[0] == '\r' && |a| > 1 && a[1] == '\n' then 2 else 1;
      EndOfLineConcat(a[n..], b);
      FirstLine(a, b, n);
    }
  }

  lemma {:induction false} FirstLine(a: string, b: string, n: nat)
    requires a != "" && n == (if a[0] == '\r' && |a| > 1 && a[1] == '\n' then 2 else 1)
    requires a[|a| - 1] != '\r' || b == "" || b[0] != '\n'
    ensures EndOfLine(a)[1..] == EndOfLine(a[n..]) && EndOfLine(a + b)[1..] == EndOfLine(a[n..] + b)
    ensures EndOfLine(a) != "" && EndOfLine(a + b) != "" && EndOfLine(a)[0] == EndOfLine(a + b)[0]
  {
    assert (a + b)[0] == a[0] && (a + b)[n..] == a[n..] + b;
    assert |a| > 1 ==> (a + b)[1] == a[1];
  }

  /** The same for three texts whose middle one has no carriage return or line feed. */
  lemma {:induction false} EndOfLineAround(a: string, mid: string, b: string)
    requires mid != "" && '\r' !in mid && '\n' !in mid
    ensures EndOfLine(a + mid + b) == EndOfLine(a) + mid + EndOfLine(b)
  {
    EndOfLineConcat(a + mid, b);
    EndOfLineConcat(a, mid);
    EndOfLineKeepsIff(mid);
  }

  lemma {:induction false} ValidAgain(s: string, signed: bool)
    ensures ValidOnly(ValidOnly(s, signed), signed) == ValidOnly(s, signed)
    ensures forall k :: 0 <= k < |ValidOnly(s, signed)| ==> IsValidXmlCharacter(ValidOnly(s, signed)[k], signed)
    ensures Bytes(s) ==> Bytes(ValidOnly(s, signed))
  {
    if s != "" {
      ValidAgain(s[1..], signed);
      assert IsValidXmlCharacter(s[0], signed) ==>
          ([s[0]] + ValidOnly(s[1..], signed))[1..] == ValidOnly(s[1..], signed);
    }
  }

  /** Invalid characters leave nothing behind. */
  lemma {:induction false} EscapedValid(s: string, isAttribute: bool, signed: bool)
    requires Bytes(s)
    ensures Bytes(ValidOnly(s, signed))
    ensures Escaped(ValidOnly(s, signed), isAttribute, signed) == Escaped(s, isAttribute, signed)
  {
    ValidAgain(s, signed);
    if s != "" {
      EscapedValid(s[1..], isAttribute, signed);
      if IsValidXmlCharacter(s[0], signed) {
        assert ([s[0]] + ValidOnly(s[1..], signed))[1..] == ValidOnly(s[1..], signed);
      } else {
        NothingWritten(s, isAttribute, signed);
      }
    }
  }

  predicate AllValid(s: string, signed: bool) {
    Bytes(s) && forall k :: 0 <= k < |s| ==> IsValidXmlCharacter(s[k], signed)
  }

  lemma {:induction false} EndOfLineValid(s: string, signed: bool)
    requires AllValid(s, signed)
    ensures AllValid(EndOfLine(s), signed) && ValidOnly(s, signed) == s
    decreases |s|
  {
    if s != "" {
      EndOfLineValid(s[1..], signed);
      if s[0] == '\r' && |s| > 1 && s[1] == '\n' { EndOfLineValid(s[2..], signed); }
      assert s == [s[0]] + s[1..];
    }
  }

  /** One escaped character of a text: a carriage return or line feed is itself, and no other
      has one. */
  lemma {:induction false} EscapedLines(c: char, signed: bool)
    requires c as int < 0x100 && IsValidXmlCharacter(c, signed)
    ensures var e := EscapedChar(c, false, signed);
      if c == '\r' || c == '\n' then e == [c] else e != "" && '\r' !in e && '\n' !in e
  {
  }

  lemma {:induction false} EscapedOne(c: char, rest: string, signed: bool)
    requires Bytes([c] + rest)
    ensures c as int < 0x100 && Bytes(rest)
    ensures Escaped([c] + rest, false, signed) == EscapedChar(c, false, signed) + Escaped(rest, false, signed)
  {
    assert ([c] + rest)[0] == c && ([c] + rest)[1..] == rest;
    assert forall k :: 0 <= k < |rest| ==> rest[k] == ([c] + rest)[k + 1];
  }

  lemma {:induction false} PairWritten(s: string, signed: bool)
    requires |s| > 1 && s[0] == '\r' && s[1] == '\n' && Bytes(s)
    ensures Escaped(s, false, signed) == "\r\n" + Escaped(s[2..], false, signed)
  {
    assert s[1..][1..] == s[2..];
    assert Escaped(s[1..], false, signed) == ['\n'] + Escaped(s[2..], false, signed);
  }

  lemma {:induction false} PairEscaped(s: string, signed: bool)
    requires |s| > 1 && s[0] == '\r' && s[1] == '\n' && AllValid(s, signed) && AllValid(EndOfLine(s[2..]), signed)
    requires EndOfLine(Escaped(s[2..], false, signed)) == Escaped(EndOfLine(s[2..]), false, signed)
    ensures Bytes(EndOfLine(s)) && EndOfLine(Escaped(s, false, signed)) == Escaped(EndOfLine(s), false, signed)
  {
    PairWritten(s, signed);
    PairLine(Escaped(s[2..], false, signed));
    LineEscaped(EndOfLine(s[2..]), signed);
  }

  lemma {:induction false} PairLine(tail: string)
    ensures EndOfLine("\r\n" + tail) == "\n" + EndOfLine(tail)
  {
    assert ("\r\n" + tail)[2..] == tail;
  }

  lemma {:induction false} LineEscaped(rest: string, signed: bool)
    requires Bytes(rest)
    ensures Bytes("\n" + rest) && Escaped("\n" + rest, false, signed) == "\n" + Escaped(rest, false, signed)
  {
    assert ("\n" + rest)[1..] == rest;
  }

  lemma {:induction false} FirstEscaped(s: string, signed: bool)
    requires s != "" && s[0] != '\n' && AllValid(s, signed)
    ensures Escaped(s, false, signed) != "" && Escaped(s, false, signed)[0] != '\n'
  {
    EscapedLines(s[0], signed);
  }

  lemma {:induction false} ReturnEscaped(s: string, signed: bool)
    requires s != "" && s[0] == '\r' && !(|s| > 1 && s[1] == '\n')
    requires AllValid(s, signed) && AllValid(EndOfLine(s[1..]), signed)
    requires EndOfLine(Escaped(s[1..], false, signed)) == Escaped(EndOfLine(s[1..]), false, signed)
    ensures Bytes(EndOfLine(s)) && EndOfLine(Escaped(s, false, signed)) == Escaped(EndOfLine(s), false, signed)
  {
    var tail := Escaped(s[1..], false, signed);
    if |s| > 1 { FirstEscaped(s[1..], signed); }
    assert Escaped(s, false, signed) == "\r" + tail;
    assert ("\r" + tail)[1..] == tail;
    LineEscaped(EndOfLine(s[1..]), signed);
  }

  /** Translating the ends of lines commutes with escaping. */
  lemma {:induction false} EndOfLineEscaped(s: string, signed: bool)
    requires AllValid(s, signed)
    ensures AllValid(EndOfLine(s), signed)
    ensures EndOfLine(Escaped(s, false, signed)) == Escaped(EndOfLine(s), false, signed)
    decreases |s|
  {
    EndOfLineValid(s, signed);
    if s != "" {
      var c, rest := s[0], s[1..];
      EscapedLines(c, signed);
      EndOfLineEscaped(rest, signed);
      if c != '\r' {
        EscapedOne(c, EndOfLine(rest), signed);
        if c == '\n' {
          EndOfLineConcat([c], Escaped(rest, false, signed));
        } else {
          EndOfLineAround("", EscapedChar(c, false, signed), Escaped(rest, false, signed));
          assert "" + EscapedChar(c, false, signed) == EscapedChar(c, false, signed);
        }
      } else if |s| > 1 && s[1] == '\n' {
        EndOfLineEscaped(s[2..], signed);
        PairEscaped(s, signed);
      } else {
        ReturnEscaped(s, signed);
      }
    }
  }

  /** A processor reads the escaped text back with its ends of lines translated, so as it was
      exactly when no carriage return is in it. */
  lemma {:induction false} TextReadBack(s: string, signed: bool)
    requires Bytes(s)
    ensures
      var output, valid := Escaped(s, false, signed), ValidOnly(s, signed);
      && Content(EndOfLine(output)) == Some(EndOfLine(valid))
      && (Content(EndOfLine(output)) == Some(valid) <==> '\r' !in valid)
  {
    var valid := ValidOnly(s, signed);
    EscapedValid(s, false, signed);
    ValidAgain(s, signed);
    EndOfLineEscaped(valid, signed);
    EndOfLineValid(valid, signed);
    EndOfLineValid(EndOfLine(valid), signed);
    TextRoundTrip(EndOfLine(valid), signed);
    EndOfLineKeepsIff(valid);
  }

  /** An escaped attribute value has no ends of lines to translate, and is read back whole. */
  lemma {:induction false} AttributeReadBack(s: string, signed: bool)
    requires Bytes(s)
    ensures AttributeValue(EndOfLine(Escaped(s, true, signed))) == Some(ValidOnly(s, signed))
  {
    EscapedIsSafe(s, true, signed);
    EndOfLineKeepsIff(Escaped(s, true, signed));
    AttributeRoundTrip(s, signed);
  }

  lemma {:induction false} FirstKept(s: string, c: char)
    requires c != '\n'
    ensures EndOfLine(s) != "" && EndOfLine(s)[0] == c ==>
              s != "" && s[0] == c && EndOfLine(s)[1..] == EndOfLine(s[1..])
  {
  }

  lemma {:induction false} EndKept(text: string)
    requires IsEnd(EndOfLine(text), 0)
    ensures IsEnd(text, 0)
  {
    FirstKept(text, ']');
    FirstKept(text[1..], ']');
    FirstKept(text[1..][1..], '>');
  }

  lemma {:induction false} NoEndTranslated(text: string)
    requires forall j: nat :: !IsEnd(text, j)
    ensures forall j: nat :: !IsEnd(EndOfLine(text), j)
    decreases |text|
  {
    if text != "" {
      var n := if text[0] == '\r' && |text| > 1 && text[1] == '\n' then 2 else 1;
      forall j: nat ensures !IsEnd(text[n..], j) { assert !IsEnd(text, n + j); }
      NoEndTranslated(text[n..]);
      var line := EndOfLine(text);
      assert line[1..] == EndOfLine(text[n..]);
      forall j: nat ensures !IsEnd(line, j) {
        if j > 0 {
          assert !IsEnd(line[1..], j - 1);
        } else if IsEnd(line, 0) {
          EndKept(text);
        }
      }
    }
  }

  lemma {:induction false} LastReadBack(data: string, i: nat, text: string)
    requires i <= |data| && FindEnd(data, i) == |data| && text == EndOfLine(data[i..])
    ensures Content(CDATA_START + EndOfLine(Sections(data, i))) == Legal(text)
  {
    NoEndBefore(data, i, |data|);
    assert data[i..|data|] == data[i..];
    NoEndTranslated(data[i..]);
    EndOfLineAround(data[i..], CDATA_END, "");
    assert data[i..] + CDATA_END + "" == Sections(data, i) && text + CDATA_END + "" == text + CDATA_END;
    LastTextReads(text);
  }

  lemma {:induction false} TranslatedSections(data: string, i: nat, k: nat)
    requires i <= k < |data| && k == FindEnd(data, i)
    ensures EndOfLine(Sections(data, i)) == EndOfLine(data[i..k]) + CDATA_BREAK + EndOfLine(Sections(data, k + 3))
  {
    NoLinesInBreak();
    EndOfLineAround(data[i..k], CDATA_BREAK, Sections(data, k + 3));
  }

  lemma {:induction false} NoLinesInBreak()
    ensures CDATA_BREAK != "" && '\r' !in CDATA_BREAK && '\n' !in CDATA_BREAK
  {
  }

  lemma {:induction false} TranslatedData(data: string, i: nat, k: nat)
    requires i <= k && IsEnd(data, k)
    ensures EndOfLine(data[i..]) == EndOfLine(data[i..k]) + ("]]>" + EndOfLine(data[k + 3..]))
  {
    var a, mid, b := data[i..k], "]]>", data[k + 3..];
    DataSplits(data, i, k);
    EndOfLineAround(a, mid, b);
    Regrouped(a, mid, b);
    Regrouped(EndOfLine(a), mid, EndOfLine(b));
  }

  lemma {:induction false} Regrouped(a: string, b: string, c: string)
    ensures a + b + c == a + (b + c)
  {
  }

  lemma {:induction false} PrefixLegal(head: string, tail: string)
    requires forall k | 0 <= k < |head| :: IsChar(head[k])
    ensures AllChars(head + tail) <==> AllChars(tail)
    decreases |head|
  {
    if head == "" {
      assert head + tail == tail;
    } else {
      assert (head + tail)[0] == head[0] && (head + tail)[1..] == head[1..] + tail;
      PrefixLegal(head[1..], tail);
    }
  }

  /** Translating ends of lines leaves a text as legal as it was. */
  lemma {:induction false} EndOfLineLegal(s: string)
    ensures AllChars(EndOfLine(s)) <==> AllChars(s)
    decreases |s|
  {
    if s != "" {
      if s[0] != '\r' {
        EndOfLineLegal(s[1..]);
        assert EndOfLine(s)[0] == s[0] && EndOfLine(s)[1..] == EndOfLine(s[1..]);
      } else {
        var n := if |s| > 1 && s[1] == '\n' then 2 else 1;
        EndOfLineLegal(s[n..]);
        assert EndOfLine(s) == "\n" + EndOfLine(s[n..]);
        PrefixLegal("\n", EndOfLine(s[n..]));
        PrefixLegal(s[..n], s[n..]);
        assert s == s[..n] + s[n..];
      }
    }
  }

  /** A processor reads CDATA sections back as the data with its ends of lines translated, if
      it is legal. */
  lemma {:induction false} SectionsReadBack(data: string, i: nat)
    requires i <= |data|
    ensures Content(CDATA_START + EndOfLine(Sections(data, i))) == Legal(EndOfLine(data[i..]))
    decreases |data| - i
  {
    var k := FindEnd(data, i);
    if k == |data| {
      LastReadBack(data, i, EndOfLine(data[i..]));
    } else {
      SectionsReadBack(data, k + 3);
      NoEndBefore(data, i, k);
      NoEndTranslated(data[i..k]);
      TranslatedSections(data, i, k);
      TranslatedData(data, i, k);
      SectionAndBreakRead(EndOfLine(Sections(data, i)), EndOfLine(data[i..k]), EndOfLine(Sections(data, k + 3)),
                          EndOfLine(data[k + 3..]), EndOfLine(data[i..]));
    }
  }

  /** So they are the data exactly when all of it is legal and no carriage return is in it. */
  lemma {:induction false} CDataReadBack(data: string)
    ensures
      var output := CDATA_START + Sections(data, 0);
      && Content(EndOfLine(output)) == (if AllChars(data) then Some(EndOfLine(data)) else None)
      && (Content(EndOfLine(output)) == Some(data) <==> AllChars(data) && '\r' !in data)
  {
    assert data[0..] == data;
    SectionsReadBack(data, 0);
    EndOfLineConcat(CDATA_START, Sections(data, 0));
    EndOfLineKeepsIff(CDATA_START);
    EndOfLineKeepsIff(data);
    EndOfLineLegal(data);
  }

  lemma {:induction false} ValidIsLegal(s: string, signed: bool)
    ensures AllChars(ValidOnly(s, signed))
  {
    ValidAgain(s, signed);
  }

  /** The detail of a failure: what cannot stand in a document is removed before the sections
      are written, so they are always read back, as the valid characters with their ends of
      lines translated. */
  method OutputDetail(stream: string, detail: string, signed: bool) returns (stream': string)
    ensures stream' == stream + CDATA_START + Sections(ValidOnly(detail, signed), 0)
    ensures Content(EndOfLine(CDATA_START + Sections(ValidOnly(detail, signed), 0)))
            == Some(EndOfLine(ValidOnly(detail, signed)))
  {
    var valid := RemoveInvalidXmlCharacters(detail, signed);
    stream' := OutputXmlCDataSection(stream, valid);
    ValidIsLegal(detail, signed);
    CDataReadBack(valid);
  }

  /** Without the removal a control character makes the document unreadable. */
  lemma {:induction false} ControlCharacterRejected()
    ensures Content(CDATA_START + Sections("\U{0001}", 0)).None?
  {
    CDataRoundTrip("\U{0001}", 0);
    assert "\U{0001}"[0..] == "\U{0001}";
    assert !IsChar("\U{0001}"[0]);
  }
}
