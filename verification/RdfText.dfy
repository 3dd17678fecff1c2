/**
 The lines of SPARQL Update payloads: triples as the form reader records them, the escaping and printing done by
 the update writer, and a decoding that shows that a line belongs to one statement only. Lines are keys here;
 what SPARQL makes of them is another matter.
 */
module RdfText {
  import opened Helpers

  const XSD_STRING := "http://www.w3.org/2001/XMLSchema#string"
  const LANG_STRING := "http://www.w3.org/1999/02/22-rdf-syntax-ns#langString"

  /** A triple as recorded from the form. An absent (falsy) datatype or language is "". */
  datatype Triple = Triple(subject: string, property: string, obj: string, dt: string, language: string)

  /** RDF terms, plus the variables of a DELETE WHERE pattern. */
  datatype Term =
    | Blank(id: string)
    | Iri(iri: string)
    | Plain(value: string)
    | Tagged(value: string, tag: string)
    | Typed(value: string, datatypeIri: string)
    | Variable(name: string)

  datatype Statement = Statement(subject: Term, property: Term, obj: Term)

  predicate IsBlank(s: string) {
    |s| >= 2 && s[0] == '_' && s[1] == ':'
  }

  /** An object that is a blank node rather than a literal spelled like one. */
  predicate BlankObject(t: Triple) {
    IsBlank(t.obj) && t.dt == ""
  }

  // What a recorded triple means ----------------------------------------------------------------

  function TermOf(term: string, dt: string, language: string): Term {
    if dt == "" then
      if IsBlank(term) then Blank(term[2..]) else Iri(term)
    else if dt == LANG_STRING && language != "" then Tagged(term, StripTag(language))
    else if dt == XSD_STRING then Plain(term)
    else Typed(term, dt)
  }

  function StatementOf(t: Triple): Statement {
    Statement(TermOf(t.subject, "", ""), TermOf(t.property, "", ""), TermOf(t.obj, t.dt, t.language))
  }

  /** Blank node labels carry no space, and predicates are not blank nodes. */
  predicate Writable(t: Triple) {
    && (IsBlank(t.subject) ==> ' ' !in t.subject)
    && !IsBlank(t.property)
    && (BlankObject(t) ==> ' ' !in t.obj)
  }

  // Escaping --------------------------------------------------------------------------------------

  /** One global replacement of a single character. */
  function ReplaceAll(s: string, c: char, sub: string): string {
    if s == [] then [] else (if s[0] == c then sub else [s[0]]) + ReplaceAll(s[1..], c, sub)
  }

  function EscapeIri(s: string): string {
    ReplaceAll(ReplaceAll(s, '\\', "\\\\"), '>', "\\>")
  }

  function EscapeLiteral(s: string): string {
    ReplaceAll(
      ReplaceAll(
        ReplaceAll(
          ReplaceAll(
            ReplaceAll(s, '\\', "\\\\"), '\t', "\\t"), '\n', "\\n"), '\r', "\\r"), '\"', "\\\"")
  }

  predicate TagChar(c: char) {
    '0' <= c <= '9' || 'a' <= c <= 'z' || 'A' <= c <= 'Z' || c == '-'
  }

  function StripTag(s: string): (r: string)
    ensures forall c | c in r :: c in s && TagChar(c)
  {
    if s == [] then [] else (if TagChar(s[0]) then [s[0]] else []) + StripTag(s[1..])
  }

  /** The escape of one character inside an IRI (`close` is '>') or a literal (`close` is '"'). */
  function EscapeChar(c: char, close: char): string {
    if c == '\\' then "\\\\"
    else if c == close then ['\\', close]
    else if close == '>' then [c]
    else if c == '\t' then "\\t"
    else if c == '\n' then "\\n"
    else if c == '\r' then "\\r"
    else [c]
  }

  function EscapeEach(s: string, close: char): string {
    if s == [] then [] else EscapeChar(s[0], close) + EscapeEach(s[1..], close)
  }

  lemma {:induction false} ReplaceAllConcat(a: string, b: string, c: char, sub: string)
    ensures ReplaceAll(a + b, c, sub) == ReplaceAll(a, c, sub) + ReplaceAll(b, c, sub)
  {
    if a == [] {
      assert a + b == b;
    } else {
      assert (a + b)[1..] == a[1..] + b;
      ReplaceAllConcat(a[1..], b, c, sub);
    }
  }

  lemma ReplaceShort(s: string, c: char, sub: string)
    requires |s| <= 2
    ensures |s| == 0 ==> ReplaceAll(s, c, sub) == []
    ensures |s| == 1 ==> ReplaceAll(s, c, sub) == if s[0] == c then sub else s
    ensures |s| == 2 && s[0] != c && s[1] != c ==> ReplaceAll(s, c, sub) == s
  {
  }

  /** The chained replacements for IRIs act on each character once. */
  lemma {:induction false} EscapeIriIsPerCharacter(s: string)
    ensures EscapeIri(s) == EscapeEach(s, '>')
  {
    if s != [] {
      EscapeIriIsPerCharacter(s[1..]);
      var h := [s[0]];
      assert s == h + s[1..];
      ReplaceAllConcat(h, s[1..], '\\', "\\\\");
      ReplaceShort(h, '\\', "\\\\");
      var h1 := ReplaceAll(h, '\\', "\\\\");
      ReplaceAllConcat(h1, ReplaceAll(s[1..], '\\', "\\\\"), '>', "\\>");
      ReplaceShort(h1, '>', "\\>");
    }
  }

  /** The chained replacements for literals act on each character once: the backslash goes first. */
  lemma {:induction false} EscapeLiteralIsPerCharacter(s: string)
    ensures EscapeLiteral(s) == EscapeEach(s, '\"')
  {
    if s != [] {
      hide ReplaceAll;
      EscapeLiteralIsPerCharacter(s[1..]);
      var h0, r0 := [s[0]], s[1..];
      assert s == h0 + r0;
      var h1, r1 := SplitReplace(h0, r0, '\\', "\\\\");
      var h2, r2 := SplitReplace(h1, r1, '\t', "\\t");
      var h3, r3 := SplitReplace(h2, r2, '\n', "\\n");
      var h4, r4 := SplitReplace(h3, r3, '\r', "\\r");
      var h5, r5 := SplitReplace(h4, r4, '\"', "\\\"");
      EscapedOnce(s[0], h1, h2, h3, h4, h5);
    }
  }

  lemma EscapedOnce(c: char, h1: string, h2: string, h3: string, h4: string, h5: string)
    requires h1 == (if c == '\\' then "\\\\" else [c])
    requires |h1| == 1 ==> h2 == if h1[0] == '\t' then "\\t" else h1
    requires |h1| == 2 ==> h2 == h1
    requires |h2| == 1 ==> h3 == if h2[0] == '\n' then "\\n" else h2
    requires |h2| == 2 ==> h3 == h2
    requires |h3| == 1 ==> h4 == if h3[0] == '\r' then "\\r" else h3
    requires |h3| == 2 ==> h4 == h3
    requires |h4| == 1 ==> h5 == if h4[0] == '\"' then "\\\"" else h4
    requires |h4| == 2 ==> h5 == h4
    ensures h5 == EscapeChar(c, '\"')
  {
  }

  lemma SplitReplace(h: string, r: string, c: char, sub: string) returns (h': string, r': string)
    requires |h| <= 2
    ensures h' == ReplaceAll(h, c, sub) && r' == ReplaceAll(r, c, sub)
    ensures ReplaceAll(h + r, c, sub) == h' + r'
    ensures |h| == 1 ==> h' == if h[0] == c then sub else h
    ensures |h| == 2 && h[0] != c && h[1] != c ==> h' == h
  {
    h', r' := ReplaceAll(h, c, sub), ReplaceAll(r, c, sub);
    ReplaceAllConcat(h, r, c, sub);
    ReplaceShort(h, c, sub);
  }

  // Printing ----------------------------------------------------------------------------------------

  function TermText(term: string, dt: string, language: string): string {
    if dt == "" && IsBlank(term) then "_:bn" + term[2..]
    else if dt == "" then "<" + EscapeIri(term) + ">"
    else "\"" + EscapeLiteral(term) + "\"" + QualifierText(dt, language)
  }

  function QualifierText(dt: string, language: string): string {
    if dt == LANG_STRING && language != "" then "@" + StripTag(language)
    else if dt != XSD_STRING then "^^<" + EscapeIri(dt) + ">"
    else ""
  }

  /** The line written for a triple. It is also the key under which the triple is recorded. */
  function TripleText(t: Triple): string {
    "\t" + TermText(t.subject, "", "") + " " + TermText(t.property, "", "") + " " +
    TermText(t.obj, t.dt, t.language) + " .\n"
  }

  function PatternTermText(term: string, dt: string, language: string): string {
    if IsBlank(term) && dt == "" then "?var" + term[2..] else TermText(term, dt, language)
  }

  function PatternText(t: Triple): string {
    "\t" + PatternTermText(t.subject, "", "") + " " + TermText(t.property, "", "") + " " +
    PatternTermText(t.obj, t.dt, t.language) + " .\n"
  }

  /** Letters, digits and the hyphen. */
  predicate InTags(c: char) {
    c == '-' || (c <= '9' && '0' <= c) || (c <= 'Z' && 'A' <= c) || (c <= 'z' && 'a' <= c)
  }

  /** A tag is stripped one character at a time. */
  lemma {:induction false} TagAppends(s: string, t: string)
    ensures StripTag(s + t) == StripTag(s) + StripTag(t)
    decreases |s|
  {
    if s == [] {
      assert s + t == t;
    } else {
      assert (s + t)[1..] == s[1..] + t;
      TagAppends(s[1..], t);
    }
  }

  /** Letters, digits and hyphens are kept in order. */
  lemma {:induction false} TagIsKept(s: string)
    requires forall i | 0 <= i < |s| :: InTags(s[i])
    ensures StripTag(s) == s
    decreases |s|
  {
    if s != [] {
      assert InTags(s[0]);
      TagIsKept(s[1..]);
    }
  }

  /** Other characters go. */
  lemma {:induction false} TagIsStripped(s: string)
    requires forall i | 0 <= i < |s| :: !InTags(s[i])
    ensures StripTag(s) == ""
    decreases |s|
  {
    if s != [] {
      assert !InTags(s[0]);
      TagIsStripped(s[1..]);
    }
  }

  lemma BritishEnglish()
    ensures StripTag("en-GB") == "en-GB"
  {
    hide StripTag;
    TagIsKept("en-GB");
  }

  /** Blank nodes are written by their label. */
  lemma BlankAsWritten(s: string, language: string)
    requires |s| >= 2 && s[0] == '_' && s[1] == ':'
    ensures TermText(s, "", language) == "_:bn" + s[2..]
  {
    hide EscapeIri, EscapeLiteral, QualifierText;
  }

  /** What is neither a literal nor starts with "_:" is an IRI, and written in angle brackets. */
  lemma IriAsWritten(s: string, language: string)
    requires !("_:" <= s)
    ensures TermText(s, "", language) == "<" + EscapeEach(s, '>') + ">"
  {
    EscapeIriIsPerCharacter(s);
    hide EscapeIri, EscapeEach, EscapeLiteral, QualifierText;
  }

  /** How literals are written: in quotes, with their tag, or nothing for a string, or else their type. */
  lemma LiteralsAsWritten(s: string, dt: string, language: string)
    requires dt != ""
    ensures var typeText := "^^<" + EscapeEach(dt, '>') + ">";
            TermText(s, dt, language)
            == "\"" + EscapeEach(s, '\"') + "\""
               + (if dt == "http://www.w3.org/2001/XMLSchema#string" then ""
                  else if dt == "http://www.w3.org/1999/02/22-rdf-syntax-ns#langString" && language != "" then "@" + StripTag(language)
                  else typeText)
  {
    EscapeIriIsPerCharacter(dt);
    EscapeLiteralIsPerCharacter(s);
    hide EscapeIri, EscapeLiteral, EscapeEach, StripTag;
    assert XSD_STRING[18] == '2' && LANG_STRING[18] == '1';
  }

  // Decoding ----------------------------------------------------------------------------------------

  predicate StartsWith(s: string, prefix: string) {
    prefix <= s
  }

  function Unescape(c: char): char {
    if c == 't' then '\t' else if c == 'n' then '\n' else if c == 'r' then '\r' else c
  }

  /** Reads escaped text up to the closing character; returns the text and what follows. */
  function DecodeEscaped(s: string, close: char): Option<(string, string)> {
    if s == [] then None
    else if s[0] == close then Some(("", s[1..]))
    else if s[0] == '\\' then
      if |s| == 1 then None
      else
        var (text, rest) :- DecodeEscaped(s[2..], close);
        Some(([Unescape(s[1])] + text, rest))
    else
      var (text, rest) :- DecodeEscaped(s[1..], close);
      Some(([s[0]] + text, rest))
  }

  /** Splits at the first space, which stays in the second part. */
  function DecodeWord(s: string): (string, string) {
    if s == [] || s[0] == ' ' then ("", s)
    else
      var (word, rest) := DecodeWord(s[1..]);
      ([s[0]] + word, rest)
  }

  function DecodeTerm(s: string): Option<(Term, string)> {
    if StartsWith(s, "_:bn") then
      var (id, rest) := DecodeWord(s[4..]);
      Some((Blank(id), rest))
    else if StartsWith(s, "<") then
      var (iri, rest) :- DecodeEscaped(s[1..], '>');
      Some((Iri(iri), rest))
    else if StartsWith(s, "\"") then
      var (value, rest) :- DecodeEscaped(s[1..], '\"');
      DecodeQualifier(value, rest)
    else None
  }

  function DecodeQualifier(value: string, s: string): Option<(Term, string)> {
    if StartsWith(s, "@") then
      var (tag, rest) := DecodeWord(s[1..]);
      Some((Tagged(value, tag), rest))
    else if StartsWith(s, "^^<") then
      var (iri, rest) :- DecodeEscaped(s[3..], '>');
      Some((Typed(value, iri), rest))
    else Some((Plain(value), s))
  }

  function Expect(s: string, prefix: string): Option<string> {
    if StartsWith(s, prefix) then Some(s[|prefix|..]) else None
  }

  function DecodeLine(s: string): (r: Option<(Statement, string)>)
    ensures r.Some? ==> |r.value.1| < |s|
  {
    var s1 :- Expect(s, "\t");
    var (subject, s2) :- DecodeTerm(s1);
    var s3 :- Expect(s2, " ");
    var (property, s4) :- DecodeTerm(s3);
    var s5 :- Expect(s4, " ");
    var (obj, s6) :- DecodeTerm(s5);
    var rest :- Expect(s6, " .\n");
    DecodeTermShrinks(s1);
    DecodeTermShrinks(s3);
    DecodeTermShrinks(s5);
    Some((Statement(subject, property, obj), rest))
  }

  lemma DecodeTermShrinks(s: string)
    ensures DecodeTerm(s).Some? ==> |DecodeTerm(s).value.1| <= |s|
  {
    if StartsWith(s, "_:bn") {
      DecodeWordShrinks(s[4..]);
    } else if StartsWith(s, "<") {
      DecodeEscapedShrinks(s[1..], '>');
    } else if StartsWith(s, "\"") {
      DecodeEscapedShrinks(s[1..], '\"');
      if DecodeEscaped(s[1..], '\"').Some? {
        var rest := DecodeEscaped(s[1..], '\"').value.1;
        if StartsWith(rest, "@") {
          DecodeWordShrinks(rest[1..]);
        } else if StartsWith(rest, "^^<") {
          DecodeEscapedShrinks(rest[3..], '>');
        }
      }
    }
  }

  lemma DecodeWordShrinks(s: string)
    ensures |DecodeWord(s).1| <= |s|
  {
  }

  lemma DecodeEscapedShrinks(s: string, close: char)
    ensures DecodeEscaped(s, close).Some? ==> |DecodeEscaped(s, close).value.1| <= |s|
  {
  }

  // Lines decode ---------------------------------------------------------------------------------------

  lemma {:induction false} DecodeEscapedInverts(s: string, close: char, rest: string)
    requires close == '>' || close == '\"'
    ensures DecodeEscaped(EscapeEach(s, close) + [close] + rest, close) == Some((s, rest))
  {
    var all := EscapeEach(s, close) + [close] + rest;
    if s == [] {
      assert all == [close] + rest;
    } else {
      DecodeEscapedInverts(s[1..], close, rest);
      var tail := EscapeEach(s[1..], close) + [close] + rest;
      var e := EscapeChar(s[0], close);
      assert all == e + tail;
      assert [s[0]] + s[1..] == s;
      hide EscapeEach;
      EscapedCharReads(s[0], close, tail);
    }
  }

  /** One character, escaped if need be, is read as itself. */
  lemma EscapedCharReads(c: char, close: char, tail: string)
    requires close == '>' || close == '\"'
    requires DecodeEscaped(tail, close).Some?
    ensures DecodeEscaped(EscapeChar(c, close) + tail, close)
            == Some(([c] + DecodeEscaped(tail, close).value.0, DecodeEscaped(tail, close).value.1))
  {
    var e := EscapeChar(c, close);
    var all := e + tail;
    assert all[|e|..] == tail;
    assert all[0] == e[0];
    if |e| == 2 {
      assert all[1] == e[1] && Unescape(e[1]) == c;
    }
  }

  lemma {:induction false} DecodeWordInverts(w: string, rest: string)
    requires ' ' !in w
    ensures DecodeWord(w + " " + rest) == (w, " " + rest)
  {
    if w == [] {
      assert w + " " + rest == " " + rest;
    } else {
      assert w[0] != ' ';
      assert (w + " " + rest)[1..] == w[1..] + " " + rest;
      DecodeWordInverts(w[1..], rest);
      assert [w[0]] + w[1..] == w;
    }
  }

  lemma WordDecodes(word: string, rest: string)
    requires ' ' !in word
    ensures DecodeTerm("_:bn" + word + " " + rest) == Some((Blank(word), " " + rest))
  {
    DecodeWordInverts(word, rest);
    assert ("_:bn" + word + " " + rest)[4..] == word + " " + rest;
  }

  lemma EscapedIriDecodes(iri: string, rest: string)
    ensures DecodeEscaped(EscapeIri(iri) + ">" + rest, '>') == Some((iri, rest))
  {
    EscapeIriIsPerCharacter(iri);
    DecodeEscapedInverts(iri, '>', rest);
    assert ">" == ['>'];
  }

  lemma IriDecodes(iri: string, rest: string)
    ensures DecodeTerm("<" + EscapeIri(iri) + ">" + rest) == Some((Iri(iri), rest))
  {
    var s := "<" + EscapeIri(iri) + ">" + rest;
    assert s[0] == '<' && s[1..] == EscapeIri(iri) + ">" + rest;
    EscapedIriDecodes(iri, rest);
  }

  lemma LiteralDecodes(value: string, after: string)
    ensures DecodeTerm("\"" + EscapeLiteral(value) + "\"" + after) == DecodeQualifier(value, after)
  {
    var s := "\"" + EscapeLiteral(value) + "\"" + after;
    assert s[0] == '\"' && s[1..] == EscapeLiteral(value) + "\"" + after;
    EscapeLiteralIsPerCharacter(value);
    DecodeEscapedInverts(value, '\"', after);
    assert "\"" == ['\"'];
  }

  lemma TagDecodes(value: string, tag: string, rest: string)
    requires ' ' !in tag
    ensures DecodeQualifier(value, "@" + tag + " " + rest) == Some((Tagged(value, tag), " " + rest))
  {
    var s := "@" + tag + " " + rest;
    assert s[0] == '@' && s[1..] == tag + " " + rest;
    DecodeWordInverts(tag, rest);
  }

  lemma DatatypeDecodes(value: string, iri: string, rest: string)
    ensures DecodeQualifier(value, "^^<" + EscapeIri(iri) + ">" + rest) == Some((Typed(value, iri), rest))
  {
    var s := "^^<" + EscapeIri(iri) + ">" + rest;
    assert s[0] == '^' && s[3..] == EscapeIri(iri) + ">" + rest;
    EscapedIriDecodes(iri, rest);
  }

  lemma QualifierDecodes(value: string, dt: string, language: string, rest: string)
    requires dt != ""
    ensures DecodeQualifier(value, QualifierText(dt, language) + " " + rest)
            == Some((TermOf(value, dt, language), " " + rest))
  {
    var s := QualifierText(dt, language) + " " + rest;
    if dt == LANG_STRING && language != "" {
      TagDecodes(value, StripTag(language), rest);
    } else if dt != XSD_STRING {
      DatatypeDecodes(value, dt, " " + rest);
      assert s == "^^<" + EscapeIri(dt) + ">" + (" " + rest);
    } else {
      assert s == " " + rest && s[0] == ' ';
    }
  }

  lemma TermDecodes(term: string, dt: string, language: string, rest: string)
    requires dt == "" && IsBlank(term) ==> ' ' !in term
    ensures DecodeTerm(TermText(term, dt, language) + " " + rest) == Some((TermOf(term, dt, language), " " + rest))
  {
    hide EscapeIri, EscapeLiteral, QualifierText;
    var s := TermText(term, dt, language) + " " + rest;
    if dt == "" && IsBlank(term) {
      WordDecodes(term[2..], rest);
    } else if dt == "" {
      IriDecodes(term, " " + rest);
      assert s == "<" + EscapeIri(term) + ">" + (" " + rest);
    } else {
      var after := QualifierText(dt, language) + " " + rest;
      LiteralDecodes(term, after);
      assert s == "\"" + EscapeLiteral(term) + "\"" + after;
      QualifierDecodes(term, dt, language, rest);
    }
  }

  predicate DecodesAs(text: string, term: Term, rest: string) {
    DecodeTerm(text + " " + rest) == Some((term, " " + rest))
  }

  lemma ThreeTermsDecode(a: string, p: string, o: string, ta: Term, tp: Term, to: Term, rest: string)
    requires DecodesAs(a, ta, p + " " + (o + " " + (".\n" + rest)))
    requires DecodesAs(p, tp, o + " " + (".\n" + rest))
    requires DecodesAs(o, to, ".\n" + rest)
    ensures DecodeLine("\t" + a + " " + p + " " + o + " .\n" + rest) == Some((Statement(ta, tp, to), rest))
  {
    hide DecodeTerm, Expect;
    var r3 := ".\n" + rest;
    var r2 := o + " " + r3;
    var r1 := p + " " + r2;
    StatementPieces("\t", a, " ", p, o, ".\n", rest);
    assert " " + ".\n" == " .\n";
    ExpectPrefix("\t", a + " " + r1);
    ExpectPrefix(" ", r1);
    ExpectPrefix(" ", r2);
    ExpectPrefix(" .\n", rest);
  }

  lemma StatementPieces(t: string, a: string, b: string, p: string, o: string, e: string, rest: string)
    ensures t + a + b + p + b + o + (b + e) + rest == t + (a + b + (p + b + (o + b + (e + rest))))
    ensures b + (e + rest) == (b + e) + rest
  {
  }

  lemma ExpectPrefix(prefix: string, rest: string)
    ensures Expect(prefix + rest, prefix) == Some(rest)
  {
  }

  /** The line of a triple is read back as the statement the triple means. */
  lemma LineDecodes(t: Triple, rest: string)
    requires Writable(t)
    ensures DecodeLine(TripleText(t) + rest) == Some((StatementOf(t), rest))
  {
    var a, p, o := TermText(t.subject, "", ""), TermText(t.property, "", ""), TermText(t.obj, t.dt, t.language);
    var r := ".\n" + rest;
    TermDecodes(t.subject, "", "", p + " " + (o + " " + r));
    TermDecodes(t.property, "", "", o + " " + r);
    TermDecodes(t.obj, t.dt, t.language, r);
    var st := StatementOf(t);
    ThreeTermsDecode(a, p, o, st.subject, st.property, st.obj, rest);
  }

  /** Comparing lines is comparing RDF statements. */
  lemma SameTextIffSameStatement(a: Triple, b: Triple)
    requires Writable(a) && Writable(b)
    ensures TripleText(a) == TripleText(b) <==> StatementOf(a) == StatementOf(b)
  {
    LineDecodes(a, "");
    LineDecodes(b, "");
    assert TripleText(a) + "" == TripleText(a) && TripleText(b) + "" == TripleText(b);
    if StatementOf(a) == StatementOf(b) {
      SameTermSameText(a.subject, "", "", b.subject, "", "");
      SameTermSameText(a.property, "", "", b.property, "", "");
      SameTermSameText(a.obj, a.dt, a.language, b.obj, b.dt, b.language);
    }
  }

  lemma SameTermSameText(a: string, adt: string, alang: string, b: string, bdt: string, blang: string)
    requires TermOf(a, adt, alang) == TermOf(b, bdt, blang)
    ensures TermText(a, adt, alang) == TermText(b, bdt, blang)
  {
  }
}
