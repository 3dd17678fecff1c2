/**
 Text as XML 1.0 reads it: the characters of section 2.2, the names of section 2.3, the references of section 4.1,
 attribute values with the normalisation of section 3.3.3, and character data with that of section 2.11.
 */
module XmlText {
  import opened Helpers

  import T = RdfText

  // Characters and names --------------------------------------------------------------------------------------------

  predicate XmlChar(c: char) {
    c == '\t' || c == '\n' || c == '\r' || (c >= ' ' && c != '\U{FFFE}' && c != '\U{FFFF}')
  }

  predicate Space(c: char) {
    c == ' ' || c == '\t' || c == '\n' || c == '\r'
  }

  /** The start of a name, without the colon. */
  predicate NameStart(c: char) {
    || 'A' <= c <= 'Z' || c == '_' || 'a' <= c <= 'z'
    || '\U{C0}' <= c <= '\U{D6}' || '\U{D8}' <= c <= '\U{F6}' || '\U{F8}' <= c <= '\U{2FF}'
    || '\U{370}' <= c <= '\U{37D}' || '\U{37F}' <= c <= '\U{1FFF}' || '\U{200C}' <= c <= '\U{200D}'
    || '\U{2070}' <= c <= '\U{218F}' || '\U{2C00}' <= c <= '\U{2FEF}' || '\U{3001}' <= c <= '\U{D7FF}'
    || '\U{F900}' <= c <= '\U{FDCF}' || '\U{FDF0}' <= c <= '\U{FFFD}' || '\U{10000}' <= c <= '\U{EFFFF}'
  }

  /** A character of a name, without the colon. */
  predicate NamePart(c: char) {
    || NameStart(c) || c == '-' || c == '.' || '0' <= c <= '9' || c == '\U{B7}'
    || '\U{300}' <= c <= '\U{36F}' || '\U{203F}' <= c <= '\U{2040}'
  }

  predicate NameChar(c: char) {
    c == ':' || NamePart(c)
  }

  /** A name without a colon, as "Namespaces in XML" has it. */
  predicate NCName(s: string) {
    s != "" && NameStart(s[0]) && forall c | c in s :: NamePart(c)
  }

  /** How many characters of a name are in front. */
  function NameRun(s: string): (n: nat)
    ensures n <= |s| && forall i | 0 <= i < n :: NameChar(s[i])
    ensures n < |s| ==> !NameChar(s[n])
  {
    if s == "" || !NameChar(s[0]) then 0 else 1 + NameRun(s[1..])
  }

  function ReadName(s: string): (r: Option<(string, string)>)
    ensures r.Some? ==> r.value.0 + r.value.1 == s && r.value.0 != ""
  {
    var n := NameRun(s);
    if n == 0 || !(s[0] == ':' || NameStart(s[0])) then None else Some((s[..n], s[n..]))
  }

  lemma {:induction false} NameRunIs(name: string, rest: string)
    requires forall c | c in name :: NameChar(c)
    requires rest == "" || !NameChar(rest[0])
    ensures NameRun(name + rest) == |name|
    decreases |name|
  {
    if name == "" {
      assert name + rest == rest;
    } else {
      assert (name + rest)[1..] == name[1..] + rest;
      NameRunIs(name[1..], rest);
    }
  }

  function Skip(s: string): (r: string)
    ensures |r| <= |s| && (r == "" || !Space(r[0]))
    ensures s != "" && Space(s[0]) ==> |r| < |s|
  {
    if s == "" || !Space(s[0]) then s else Skip(s[1..])
  }

  // References ------------------------------------------------------------------------------------------------------

  function DigitValue(c: char): nat {
    if '0' <= c <= '9' then (c - '0') as nat
    else if 'a' <= c <= 'f' then 10 + (c - 'a') as nat
    else if 'A' <= c <= 'F' then 10 + (c - 'A') as nat
    else 16
  }

  /** Where the digits from there on end. */
  function DigitsEnd(s: string, at: nat, radix: nat): (n: nat)
    requires at <= |s| && radix <= 16
    ensures at <= n <= |s| && forall i | at <= i < n :: DigitValue(s[i]) < radix
    decreases |s| - at
  {
    if at < |s| && DigitValue(s[at]) < radix then DigitsEnd(s, at + 1, radix) else at
  }

  function Number(s: string, radix: nat): nat {
    if s == "" then 0 else Number(s[..|s| - 1], radix) * radix + DigitValue(s[|s| - 1])
  }

  /** A reference by number to a character that XML allows, and its length. */
  function Numbered(s: string, at: nat, radix: nat): (r: Option<(char, nat)>)
    requires 1 <= at <= |s| && radix <= 16
    ensures r.Some? ==> 3 <= r.value.1 <= |s|
  {
    var n := DigitsEnd(s, at, radix);
    if at < n < |s| && s[n] == ';' then
      var code := Number(s[at..n], radix);
      if (code < 0xD800 || 0xE000 <= code < 0x11_0000) && XmlChar(code as char) then Some((code as char, n + 1)) else None
    else None
  }

  /** What the reference after an ampersand stands for, and its length. */
  function Reference(s: string): (r: Option<(char, nat)>)
    ensures r.Some? ==> 3 <= r.value.1 <= |s|
  {
    if "amp;" <= s then Some(('&', 4))
    else if "lt;" <= s then Some(('<', 3))
    else if "gt;" <= s then Some(('>', 3))
    else if "quot;" <= s then Some(('\"', 5))
    else if "apos;" <= s then Some(('\'', 5))
    else if "#x" <= s then Numbered(s, 2, 16)
    else if "#" <= s then Numbered(s, 1, 10)
    else None
  }

  /** No reference reaches over a quotation mark. */
  lemma ReferenceHasNoQuote(s: string)
    requires Reference(s).Some?
    ensures forall i | 0 <= i < Reference(s).value.1 :: s[i] != '\"'
  {
    var n := Reference(s).value.1;
    if !("amp;" <= s || "lt;" <= s || "gt;" <= s || "quot;" <= s || "apos;" <= s) {
      var at, radix := if "#x" <= s then 2 else 1, if "#x" <= s then 16 else 10;
      assert s[0] == '#' && (at == 2 ==> s[1] == 'x');
      assert n == DigitsEnd(s, at, radix) + 1;
    }
  }

  // Attribute values --------------------------------------------------------------------------------------------------

  /** The value of an attribute from its first character on, and what follows the closing quote. */
  function ReadQuoted(s: string, quote: char): (r: Option<(string, string)>)
    ensures r.Some? ==> |r.value.0| + 1 + |r.value.1| <= |s|
    decreases |s|
  {
    if s == "" || s[0] == '<' || !XmlChar(s[0]) then None
    else if s[0] == quote then Some(("", s[1..]))
    else if s[0] == '&' then
      var (c, n) :- Reference(s[1..]);
      var (v, rest) :- ReadQuoted(s[1 + n..], quote);
      Some(([c] + v, rest))
    else if "\r\n" <= s then ReadQuoted(s[1..], quote)
    else
      var (v, rest) :- ReadQuoted(s[1..], quote);
      Some(([if Space(s[0]) then ' ' else s[0]] + v, rest))
  }

  /** A value in quotation marks. */
  function ReadValue(s: string): (r: Option<(string, string)>)
    ensures r.Some? ==> |r.value.0| + 1 + |r.value.1| <= |s|
  {
    ReadQuoted(s, '\"')
  }

  /** A character that stays as it is in an attribute, but for the ampersand. */
  predicate Lasting(c: char) {
    c >= ' ' && XmlChar(c) && c != '\"' && c != '<'
  }

  /** Text that stays as it is when its ampersands are escaped. */
  predicate Escapable(v: string) {
    forall c | c in v :: Lasting(c)
  }

  /** Text that stays as it is without any escaping. */
  predicate Verbatim(v: string) {
    forall c | c in v :: Lasting(c) && c != '&'
  }

  /** A reference in a value ends before the value's quotation mark. */
  lemma ReferenceEnds(v: string, rest: string)
    requires v != "" && v[0] == '&' && Reference((v + "\"" + rest)[1..]).Some?
    ensures var s := v + "\"" + rest;
            var n := Reference(s[1..]).value.1;
            n < |v| && s[1 + n..] == v[1 + n..] + "\"" + rest
  {
    var s := v + "\"" + rest;
    ReferenceHasNoQuote(s[1..]);
    assert s[1..][|v| - 1] == '\"';
  }

  /** A value that is read is not longer than its text, and shorter if it starts with a reference. */
  lemma {:induction false} ValueIsShort(v: string, rest: string)
    ensures var r := ReadValue(v + "\"" + rest); r.Some? ==> |r.value.0| <= |v|
    ensures var r := ReadValue(v + "\"" + rest); r.Some? && v != "" && v[0] == '&' ==> |r.value.0| < |v|
    decreases |v|
  {
    var s := v + "\"" + rest;
    if ReadValue(s).Some? && v != "" && v[0] != '\"' {
      if v[0] == '&' {
        ReferenceEnds(v, rest);
        ValueIsShort(v[1 + Reference(s[1..]).value.1..], rest);
      } else {
        assert s[1..] == v[1..] + "\"" + rest;
        ValueIsShort(v[1..], rest);
      }
    }
  }

  lemma ValueSteps(c: char, more: string)
    requires Lasting(c) && c != '&'
    ensures var r := ReadValue([c] + more); var m := ReadValue(more);
            if m.None? then r == None
            else r.Some? && r.value == ([c] + m.value.0, m.value.1) && r.value.0[1..] == m.value.0
  {
    assert ([c] + more)[1..] == more;
  }

  /** Line ends and tabs do not stay as they are. */
  lemma ControlIsLost(s: string)
    requires s != "" && s[0] < ' ' && ReadValue(s).Some?
    ensures var v := ReadValue(s).value.0; v != "" && v[0] == ' '
  {
    if "\r\n" <= s {
      var t := s[1..];
      assert t[0] == '\n' && !("\r\n" <= t) && ReadQuoted(s, '\"') == ReadQuoted(t, '\"');
      var more := ReadQuoted(t[1..], '\"');
      assert more.Some? && ReadQuoted(t, '\"').value.0 == [' '] + more.value.0;
    }
  }

  /** A value written as it is reads back exactly when it is verbatim, and then what follows it is left. */
  lemma {:induction false} RawValueReads(v: string, rest: string)
    ensures Verbatim(v) ==> ReadValue(v + "\"" + rest) == Some((v, rest))
    ensures ReadValue(v + "\"" + rest).Some? && ReadValue(v + "\"" + rest).value.0 == v ==> Verbatim(v)
    decreases |v|
  {
    var s := v + "\"" + rest;
    if v == "" {
      assert s[1..] == rest;
    } else {
      var more := v[1..] + "\"" + rest;
      RawValueReads(v[1..], rest);
      assert v == [v[0]] + v[1..] && s == [v[0]] + more;
      if v[0] == '&' {
        ValueIsShort(v, rest);
      } else if Lasting(v[0]) {
        ValueSteps(v[0], more);
      } else if v[0] < ' ' && ReadValue(s).Some? {
        ControlIsLost(s);
      }
    }
  }

  // Escaping ----------------------------------------------------------------------------------------------------------

  function EscapeAmpersand(s: string): string {
    T.ReplaceAll(s, '&', "&amp;")
  }

  /** A value with its ampersands escaped reads back exactly when it is escapable. */
  lemma {:induction false} EscapedValueReads(v: string, rest: string)
    ensures Escapable(v) ==> ReadValue(EscapeAmpersand(v) + "\"" + rest) == Some((v, rest))
    ensures var r := ReadValue(EscapeAmpersand(v) + "\"" + rest); r.Some? && r.value.0 == v ==> Escapable(v)
    decreases |v|
  {
    var s := EscapeAmpersand(v) + "\"" + rest;
    if v == "" {
      assert s[1..] == rest;
    } else {
      var more := EscapeAmpersand(v[1..]) + "\"" + rest;
      EscapedValueReads(v[1..], rest);
      assert v == [v[0]] + v[1..];
      if v[0] == '&' {
        assert s == "&" + ("amp;" + more);
        AmpersandSteps(more);
      } else {
        assert s == [v[0]] + more;
        if Lasting(v[0]) {
          ValueSteps(v[0], more);
        } else if v[0] < ' ' && ReadValue(s).Some? {
          ControlIsLost(s);
        }
      }
    }
  }

  lemma AmpersandSteps(more: string)
    ensures var r := ReadValue("&" + ("amp;" + more)); var m := ReadValue(more);
            if m.None? then r == None
            else r.Some? && r.value == (['&'] + m.value.0, m.value.1) && r.value.0[1..] == m.value.0
  {
    var s := "&" + ("amp;" + more);
    assert s[1..] == "amp;" + more && s[5..] == more;
  }

  // Character data ----------------------------------------------------------------------------------------------------

  /** The text up to the next tag, and the rest from that tag on. */
  function ReadText(s: string): (r: Option<(string, string)>)
    ensures r.Some? ==> |r.value.0| + |r.value.1| <= |s| && r.value.1 != "" && r.value.1[0] == '<'
    decreases |s|
  {
    if s == "" || !XmlChar(s[0]) || "]]>" <= s then None
    else if s[0] == '<' then Some(("", s))
    else if s[0] == '&' then
      var (c, n) :- Reference(s[1..]);
      var (v, rest) :- ReadText(s[1 + n..]);
      Some(([c] + v, rest))
    else if "\r\n" <= s then ReadText(s[1..])
    else
      var (v, rest) :- ReadText(s[1..]);
      Some(([if s[0] == '\r' then '\n' else s[0]] + v, rest))
  }

  /** Text that stays as it is when it is escaped. */
  predicate CleanText(v: string) {
    forall c | c in v :: XmlChar(c) && c != '\r'
  }

  function BuildLiteral(s: string): string {
    T.ReplaceAll(T.ReplaceAll(T.ReplaceAll(s, '&', "&amp;"), '<', "&lt;"), '>', "&gt;")
  }

  function EntityOf(c: char): string {
    if c == '&' then "&amp;" else if c == '<' then "&lt;" else if c == '>' then "&gt;" else [c]
  }

  function EachEntity(s: string): (r: string)
    ensures '<' !in r && '>' !in r
  {
    if s == "" then "" else EntityOf(s[0]) + EachEntity(s[1..])
  }

  lemma {:induction false} NothingToReplace(s: string, c: char, sub: string)
    requires c !in s
    ensures T.ReplaceAll(s, c, sub) == s
    decreases |s|
  {
    if s != "" {
      NothingToReplace(s[1..], c, sub);
      assert s == [s[0]] + s[1..];
    }
  }

  /** The chained replacements act on each character once: the ampersand goes first. */
  lemma {:induction false} LiteralIsPerCharacter(s: string)
    ensures BuildLiteral(s) == EachEntity(s)
    decreases |s|
  {
    if s != "" {
      LiteralIsPerCharacter(s[1..]);
      var h, r := [s[0]], s[1..];
      assert s == h + r;
      T.ReplaceAllConcat(h, r, '&', "&amp;");
      var h1, r1 := T.ReplaceAll(h, '&', "&amp;"), T.ReplaceAll(r, '&', "&amp;");
      T.ReplaceAllConcat(h1, r1, '<', "&lt;");
      var h2, r2 := T.ReplaceAll(h1, '<', "&lt;"), T.ReplaceAll(r1, '<', "&lt;");
      T.ReplaceAllConcat(h2, r2, '>', "&gt;");
      assert T.ReplaceAll(h2, '>', "&gt;") == EntityOf(s[0]) by { OneCharacter(s[0]); }
    }
  }

  lemma OneCharacter(c: char)
    ensures BuildLiteral([c]) == EntityOf(c)
  {
    T.ReplaceShort([c], '&', "&amp;");
    if c == '&' {
      NothingToReplace("&amp;", '<', "&lt;");
      NothingToReplace("&amp;", '>', "&gt;");
    } else {
      T.ReplaceShort([c], '<', "&lt;");
      if c == '<' {
        NothingToReplace("&lt;", '>', "&gt;");
      } else {
        T.ReplaceShort([c], '>', "&gt;");
      }
    }
  }

  /** A literal reads back exactly when it is clean, and whatever it holds, it does not reach into the markup. */
  lemma LiteralReadsIff(v: string, rest: string)
    requires rest != "" && rest[0] == '<'
    ensures CleanText(v) ==> ReadText(BuildLiteral(v) + rest) == Some((v, rest))
    ensures var r := ReadText(BuildLiteral(v) + rest); r.Some? ==> r.value.1 == rest && (r.value.0 == v ==> CleanText(v))
  {
    LiteralIsPerCharacter(v);
    EntitiesRead(v, rest);
  }

  lemma {:induction false} EntitiesRead(v: string, rest: string)
    requires rest != "" && rest[0] == '<'
    ensures CleanText(v) ==> ReadText(EachEntity(v) + rest) == Some((v, rest))
    ensures var r := ReadText(EachEntity(v) + rest); r.Some? ==> r.value.1 == rest && (r.value.0 == v ==> CleanText(v))
    decreases |v|
  {
    hide ReadText, XmlChar, EachEntity, EntityOf;
    if v == "" {
      NothingReads(rest);
    } else {
      var more := EachEntity(v[1..]) + rest;
      EntitiesRead(v[1..], rest);
      assert v == [v[0]] + v[1..];
      FirstEntity(v, rest);
      if v[0] == '&' || v[0] == '<' || v[0] == '>' {
        EntityReads(v[0], more);
        MarkupIsXml();
      } else if XmlChar(v[0]) && v[0] != '\r' {
        TextSteps(v[0], more);
      } else if XmlChar(v[0]) {
        ReturnIsLost(more);
      } else {
        NoTextThere(v[0], more);
      }
    }
  }

  lemma NothingReads(rest: string)
    requires rest != "" && rest[0] == '<'
    ensures ReadText(EachEntity("") + rest) == Some(("", rest))
  {
    assert EachEntity("") + rest == rest;
    assert XmlChar('<') && !("]]>" <= rest);
  }

  lemma NoTextThere(c: char, more: string)
    requires !XmlChar(c)
    ensures ReadText([c] + more) == None
  {
  }

  lemma MarkupIsXml()
    ensures XmlChar('&') && XmlChar('<') && XmlChar('>')
  {
  }

  lemma FirstEntity(v: string, rest: string)
    requires v != "" && rest != "" && rest[0] == '<'
    ensures EachEntity(v) + rest == EntityOf(v[0]) + (EachEntity(v[1..]) + rest)
    ensures v[0] != '&' && v[0] != '<' && v[0] != '>' ==> EntityOf(v[0]) == [v[0]]
    ensures !("]]>" <= EachEntity(v) + rest)
  {
    NoSectionEnd(EachEntity(v), rest);
    Regroup(EntityOf(v[0]), EachEntity(v[1..]), rest);
  }

  lemma Regroup(a: string, b: string, c: string)
    ensures a + b + c == a + (b + c)
  {
  }

  lemma NoSectionEnd(e: string, rest: string)
    requires '>' !in e && rest != "" && rest[0] == '<'
    ensures !("]]>" <= e + rest)
  {
    var s := e + rest;
    assert s[|e|] == '<';
    assert |e| > 2 ==> s[2] == e[2] && e[2] in e;
  }

  lemma EntityReads(c: char, more: string)
    requires c == '&' || c == '<' || c == '>'
    ensures var r := ReadText(EntityOf(c) + more); var m := ReadText(more);
            if m.None? then r == None
            else r.Some? && r.value == ([c] + m.value.0, m.value.1) && r.value.0[1..] == m.value.0
  {
    hide ReadText, Reference;
    var body := EntityOf(c)[1..];
    EntityReference(c, more);
    ReferenceSteps(body, c, more);
    assert EntityOf(c) + more == "&" + (body + more);
  }

  lemma EntityReference(c: char, more: string)
    requires c == '&' || c == '<' || c == '>'
    ensures EntityOf(c) == "&" + EntityOf(c)[1..]
    ensures Reference(EntityOf(c)[1..] + more) == Some((c, |EntityOf(c)| - 1))
  {
    var s := EntityOf(c)[1..] + more;
    assert s[0] == EntityOf(c)[1];
  }

  lemma ReferenceSteps(body: string, c: char, more: string)
    requires Reference(body + more) == Some((c, |body|))
    ensures var r := ReadText("&" + (body + more)); var m := ReadText(more);
            if m.None? then r == None
            else r.Some? && r.value == ([c] + m.value.0, m.value.1) && r.value.0[1..] == m.value.0
  {
    var s := "&" + (body + more);
    assert s[1..] == body + more && s[1 + |body|..] == more;
  }

  lemma TextSteps(c: char, more: string)
    requires XmlChar(c) && c != '\r' && c != '&' && c != '<' && !("]]>" <= [c] + more)
    ensures var r := ReadText([c] + more); var m := ReadText(more);
            if m.None? then r == None
            else r.Some? && r.value == ([c] + m.value.0, m.value.1) && r.value.0[1..] == m.value.0
  {
    assert ([c] + more)[1..] == more;
  }

  lemma ReturnIsLost(more: string)
    ensures var r := ReadText("\r" + more); var m := ReadText(more);
            r.Some? ==> m.Some? && r.value.1 == m.value.1 && r.value.0 != "" && r.value.0[0] == '\n'
  {
    var s := "\r" + more;
    assert s[1..] == more;
    if "\r\n" <= s {
      assert s[1] == more[0] == '\n';
    }
  }

  // Tags --------------------------------------------------------------------------------------------------------------

  type Attributes = seq<(string, string)>

  /** What follows the name of an element in its tag. */
  datatype Tag = Tag(attributes: Attributes, empty: bool)

  function ReadTag(s: string): (r: Option<(Tag, string)>)
    ensures r.Some? ==> |r.value.1| < |s|
    decreases |s|
  {
    var t := Skip(s);
    if ">" <= t then Some((Tag([], false), t[1..]))
    else if "/>" <= t then Some((Tag([], true), t[2..]))
    else if t == s then None
    else
      var (name, after) :- ReadName(t);
      var mark := Skip(after);
      if !("=" <= mark) then None
      else
        var quoted := Skip(mark[1..]);
        if !("\"" <= quoted || "'" <= quoted) then None
        else
          var (v, rest) :- ReadQuoted(quoted[1..], quoted[0]);
          var (tag, more) :- ReadTag(rest);
          Some((Tag([(name, v)] + tag.attributes, tag.empty), more))
  }

  predicate Name(s: string) {
    s != "" && (s[0] == ':' || NameStart(s[0])) && forall c | c in s :: NameChar(c)
  }

  lemma NameReads(name: string, rest: string)
    requires Name(name) && (rest == "" || !NameChar(rest[0]))
    ensures ReadName(name + rest) == Some((name, rest))
  {
    NameRunIs(name, rest);
    assert (name + rest)[..|name|] == name && (name + rest)[|name|..] == rest;
  }

  /** Something that is no name is not read as one, whatever follows it. */
  lemma NoNameReads(name: string, rest: string)
    requires name != "" && !Name(name) && rest != "" && !NameChar(rest[0])
    ensures var r := ReadName(name + rest); r.Some? ==> |r.value.0| < |name|
  {
    var s := name + rest;
    if NameRun(s) >= |name| {
      assert s[|name|] == rest[0];
      assert forall i | 0 <= i < |name| :: name[i] == s[i] && NameChar(s[i]);
    }
  }

  /** A tag that begins with an attribute whose value was read. */
  function TagAfter(name: string, value: Option<(string, string)>): Option<(Tag, string)> {
    var (v, rest) :- value;
    var (tag, more) :- ReadTag(rest);
    Some((Tag([(name, v)] + tag.attributes, tag.empty), more))
  }

  lemma TagSteps(name: string, raw: string)
    requires Name(name)
    ensures ReadTag(" " + name + "=\"" + raw) == TagAfter(name, ReadValue(raw))
  {
    hide NameChar, NameStart, ReadQuoted, Skip, ReadName, Space;
    var s, after := " " + name + "=\"" + raw, "=\"" + raw;
    var t := name + after;
    NameIsNoEnd(name[0]);
    SkipStays(t);
    SkipsOne(' ', t);
    assert s == [' '] + t;
    EqualsIsNoName(raw);
    NameReads(name, after);
    assert t[0] == name[0] && t != s;
  }

  lemma EqualsIsNoName(raw: string)
    ensures var after := "=\"" + raw; var quoted := "\"" + raw;
            && !NameChar(after[0]) && Skip(after) == after && after[1..] == quoted && "=" <= after
            && Skip(quoted) == quoted && quoted[1..] == raw && "\"" <= quoted
  {
    var after, quoted := "=\"" + raw, "\"" + raw;
    SkipStays(after);
    SkipStays(quoted);
  }

  lemma SkipsOne(c: char, t: string)
    requires Space(c)
    ensures Skip([c] + t) == Skip(t)
  {
    assert ([c] + t)[1..] == t;
  }

  lemma SkipStays(t: string)
    requires t != "" && !Space(t[0])
    ensures Skip(t) == t
  {
  }

  lemma Delimiters()
    ensures forall c | c in " =\"<>/\t\n\r&;" :: !NameChar(c)
  {
  }

  lemma NameIsNoEnd(c: char)
    requires NameChar(c) || c == ':' || NameStart(c)
    ensures !Space(c) && c != '>' && c != '/' && Space(' ')
  {
  }

  lemma TagEnds(rest: string)
    ensures ReadTag(">" + rest) == Some((Tag([], false), rest)) && ReadTag("/>" + rest) == Some((Tag([], true), rest))
  {
    SkipStays(">" + rest);
    SkipStays("/>" + rest);
    assert (">" + rest)[1..] == rest && ("/>" + rest)[2..] == rest;
  }

  // Markup in an XML literal ------------------------------------------------------------------------------------------

  /** Where a scan of markup is: in text, after so many closing brackets; after '<'; in one kind of tag, or aside. */
  datatype Place =
    | Content(brackets: nat)
    | Less
    | Opening(name: string)
    | Inside(name: string, text: string, quote: Option<char>)
    | Closing(text: string)
    | Entity(text: string)
    | Aside(text: string)
    | Target(text: string)
    | Ending
    | Until(stop: string, text: string)
    | Broken

  /** A place, and the names of the elements that are open. */
  datatype Scan = Scan(place: Place, open: seq<string>)

  const SCAN: Scan := Scan(Content(0), [])

  function EndTag(st: Scan, text: string): Scan {
    if st.open == [] then st.(place := Broken)
    else
      var n, name := |st.open| - 1, st.open[|st.open| - 1];
      if name <= text && Skip(text[|name|..]) == "" then Scan(Content(0), st.open[..n]) else st.(place := Broken)
  }

  function StartTag(st: Scan, name: string, text: string): Scan {
    match ReadTag(text + ">")
    case Some((tag, "")) =>
      if !UniqueNames(tag.attributes) || !Qualified(name) || exists a :: a in tag.attributes && !Qualified(a.0)
      then st.(place := Broken)
      else Scan(Content(0), if tag.empty then st.open else st.open + [name])
    case _ => st.(place := Broken)
  }

  /** A name with at most one colon, and a name on either side of it. */
  predicate Qualified(s: string) {
    NCName(s) || exists i: nat :: i < |s| && s[i] == ':' && NCName(s[..i]) && NCName(s[i + 1..])
  }

  predicate UniqueNames(a: Attributes) {
    forall i, j | 0 <= i < j < |a| :: a[i].0 != a[j].0
  }

  function Comment(text: string): (place: Place) {
    if text == "--" then Until("-->", "")
    else if text == "[CDATA[" then Until("]]>", "")
    else if text <= "--" || text <= "[CDATA[" then Aside(text)
    else Broken
  }

  /** What a processing instruction may be called (section 2.6): a name without a colon, other than xml in any case. */
  predicate Instruction(s: string) {
    NCName(s) && !(|s| == 3 && s[0] in "xX" && s[1] in "mM" && s[2] in "lL")
  }

  predicate EndsWith(s: string, end: string) {
    |end| <= |s| && s[|s| - |end|..] == end
  }

  function Step(st: Scan, c: char): Scan {
    if !XmlChar(c) || c == '\r' then st.(place := Broken)
    else
      match st.place
      case Content(n) =>
        st.(place := if c == '<' then Less
                     else if c == '&' then Entity("")
                     else if c == ']' then Content(n + 1)
                     else if c == '>' && n >= 2 then Broken
                     else Content(0))
      case Less =>
        st.(place := if c == '/' then Closing("")
                     else if c == '!' then Aside("")
                     else if c == '?' then Target("")
                     else if c == ':' || NameStart(c) then Opening([c])
                     else Broken)
      case Opening(name) =>
        if NameChar(c) then st.(place := Opening(name + [c]))
        else if c == '>' then StartTag(st, name, "")
        else st.(place := Inside(name, [c], None))
      case Inside(name, text, quote) =>
        if c == '>' && quote.None? then StartTag(st, name, text)
        else if quote == Some(c) then st.(place := Inside(name, text + [c], None))
        else if (c == '\"' || c == '\'') && quote.None? then st.(place := Inside(name, text + [c], Some(c)))
        else st.(place := Inside(name, text + [c], quote))
      case Closing(text) => if c == '>' then EndTag(st, text) else st.(place := Closing(text + [c]))
      case Entity(text) =>
        var r := Reference(text + [c]);
        st.(place := if c != ';' then Entity(text + [c]) else if r.Some? && r.value.1 == |text| + 1 then Content(0) else Broken)
      case Aside(text) => st.(place := Comment(text + [c]))
      case Target(text) =>
        st.(place := if NamePart(c) then Target(text + [c])
                     else if !Instruction(text) then Broken
                     else if Space(c) then Until("?>", "")
                     else if c == '?' then Ending
                     else Broken)
      case Ending => st.(place := if c == '>' then Content(0) else Broken)
      case Until(stop, text) =>
        st.(place := if EndsWith(text + [c], stop) then Content(0)
                     else if stop == "-->" && EndsWith(text, "--") then Broken
                     else Until(stop, text + [c]))
      case Broken => st
  }

  function Scanned(st: Scan, s: string): Scan
    decreases |s|
  {
    if s == "" then st else Scanned(Step(st, s[0]), s[1..])
  }

  /** In text, with no element open. */
  predicate Outermost(st: Scan) {
    st.place.Content? && st.open == []
  }

  /** Markup whose tags are well formed and nested. */
  predicate Balanced(s: string) {
    Outermost(Scanned(SCAN, s))
  }

  /** The markup up to the closing tag of the element it is in, and the rest from that tag on. */
  function ReadMarkup(st: Scan, s: string): (r: Option<(string, string)>)
    ensures r.Some? ==> r.value.0 + r.value.1 == s && "</" <= r.value.1
    decreases |s|
  {
    if Outermost(st) && "</" <= s then Some(("", s))
    else if s == "" then None
    else
      var (v, rest) :- ReadMarkup(Step(st, s[0]), s[1..]);
      Some(([s[0]] + v, rest))
  }

  /** A closing tag without an element to close is never recovered from. */
  lemma {:induction false} StrayClose(st: Scan, s: string)
    requires st.open == [] && (st.place.Closing? || st.place.Broken?)
    ensures !Outermost(Scanned(st, s))
    decreases |s|
  {
    if s != "" {
      StrayClose(Step(st, s[0]), s[1..]);
    }
  }

  /** Markup pasted into an element reads back exactly when its tags are nested. */
  lemma {:induction false} MarkupReads(st: Scan, v: string, rest: string)
    ensures Outermost(Scanned(st, v)) ==> ReadMarkup(st, v + "</" + rest) == Some((v, "</" + rest))
    ensures var r := ReadMarkup(st, v + "</" + rest);
            r.Some? && r.value.0 == v ==> r.value.1 == "</" + rest && Outermost(Scanned(st, v))
    decreases |v|
  {
    hide Step;
    var s := v + "</" + rest;
    if v == "" {
      assert s == "</" + rest;
    } else {
      assert s[0] == v[0] && s[1..] == v[1..] + "</" + rest;
      assert v == [v[0]] + v[1..];
      MarkupReads(Step(st, v[0]), v[1..], rest);
      if Outermost(st) && "</" <= s {
        ClosesNothing(st, v, rest);
      }
    }
  }

  lemma ClosesNothing(st: Scan, v: string, rest: string)
    requires Outermost(st) && v != "" && "</" <= v + "</" + rest
    ensures !Outermost(Scanned(st, v))
  {
    var s := v + "</" + rest;
    assert s[0] == '<' == v[0] && s[1] == '/';
    assert |v| > 1 by { assert s[|v|] == '<'; }
    var st1 := Step(st, '<');
    var st2 := Step(st1, '/');
    assert v[1] == '/' && Scanned(st, v) == Scanned(st1, v[1..]) == Scanned(st2, v[1..][1..]);
    StrayClose(st2, v[1..][1..]);
  }

  // Processing instructions -------------------------------------------------------------------------------------------

  lemma {:induction false} BrokenStays(st: Scan, s: string)
    requires st.place.Broken?
    ensures Scanned(st, s).place.Broken?
    decreases |s|
  {
    if s != "" {
      BrokenStays(Step(st, s[0]), s[1..]);
    }
  }

  /** Scanning the target of an instruction. */
  lemma {:induction false} TargetScanned(open: seq<string>, text: string, name: string, rest: string)
    requires forall c | c in name :: NamePart(c)
    ensures Scanned(Scan(Target(text), open), name + rest) == Scanned(Scan(Target(text + name), open), rest)
    decreases |name|
  {
    if name == "" {
      assert name + rest == rest && text + name == text;
    } else {
      assert (name + rest)[0] == name[0] && (name + rest)[1..] == name[1..] + rest;
      assert text + name == text + [name[0]] + name[1..];
      PartIsXml(name[0]);
      TargetScanned(open, text + [name[0]], name[1..], rest);
    }
  }

  lemma PartIsXml(c: char)
    requires NamePart(c)
    ensures XmlChar(c) && c != '\r'
  {
  }

  /** An instruction without anything but a name is well formed exactly when that name may be used. */
  lemma InstructionIff(name: string)
    requires forall c | c in name :: NamePart(c)
    ensures Balanced("<?" + name + "?>") <==> Instruction(name)
  {
    hide Instruction, NamePart, NameStart;
    var s := "<?" + name + "?>";
    assert s[0] == '<' && s[1..][0] == '?' && s[1..][1..] == name + "?>";
    assert Step(SCAN, '<') == Scan(Less, []) && Step(Scan(Less, []), '?') == Scan(Target(""), []);
    assert Scanned(SCAN, s) == Scanned(Scan(Less, []), s[1..]) == Scanned(Scan(Target(""), []), name + "?>");
    TargetScanned([], "", name, "?>");
    assert "" + name == name;
    TargetEnds(name);
  }

  lemma TargetEnds(name: string)
    ensures Outermost(Scanned(Scan(Target(name), []), "?>")) <==> Instruction(name)
  {
    hide Instruction;
    var st := Scan(Target(name), []);
    MarkIsNoName();
    assert "?>"[1..] == ">" && ">"[1..] == "";
    var next := Step(st, '?');
    assert Scanned(st, "?>") == Scanned(next, ">") == Scanned(Step(next, '>'), "");
  }

  lemma MarkIsNoName()
    ensures !NamePart('?')
  {
  }

  /** Neither an instruction without a name nor one called xml can be in a document. */
  lemma NoSuchInstruction()
    ensures !Balanced("<??>") && !Balanced("<?xml?>") && !Balanced("<?XML?>") && Balanced("<?sort?>")
  {
    hide Balanced, Instruction, NamePart;
    LettersAreParts();
    InstructionNames();
    InstructionIff("");
    InstructionIff("xml");
    InstructionIff("XML");
    InstructionIff("sort");
    InstructionTexts();
  }

  lemma InstructionTexts()
    ensures "<?" + "" + "?>" == "<??>" && "<?" + "xml" + "?>" == "<?xml?>" && "<?" + "XML" + "?>" == "<?XML?>"
    ensures "<?" + "sort" + "?>" == "<?sort?>"
  {
  }

  lemma InstructionNames()
    ensures Instruction("sort") && !Instruction("xml") && !Instruction("XML") && !Instruction("")
  {
    LettersAreParts();
    assert 'x' in "xX" && 'X' in "xX" && 'm' in "mM" && 'M' in "mM" && 'l' in "lL" && 'L' in "lL";
  }

  lemma LettersAreParts()
    ensures forall c | c in "xmlXMLsort" :: NamePart(c)
  {
    assert forall c | c in "xmlXMLsort" :: 'a' <= c <= 'z' || 'A' <= c <= 'Z';
  }
}
