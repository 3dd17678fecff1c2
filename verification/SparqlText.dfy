/**
 Updates as SPARQL 1.1 reads them: the terminals of section 19.8, variables and blank node labels among them,
 statements of a subject, a verb and an object, and the two operations that payloads consist of. Prefixed names,
 long quotes and lists, which are never written, are refused. So are codepoint escapes (section 19.2) outside
 of literals; in a literal every backslash is written double.
 */
module SparqlText {
  import opened Helpers
  import opened RdfText

  import X = XmlText

  // Terminals -------------------------------------------------------------------------------------------------------

  predicate Digit(c: char) {
    '0' <= c <= '9'
  }

  predicate Letter(c: char) {
    'a' <= c <= 'z' || 'A' <= c <= 'Z'
  }

  /** How a label or a variable starts: the letters are those that start names in XML. */
  predicate FirstChar(c: char) {
    X.NameStart(c) || Digit(c)
  }

  /** Names in XML go on with the same characters as labels do. */
  predicate LabelChar(c: char) {
    X.NamePart(c)
  }

  predicate VarChar(c: char) {
    X.NamePart(c) && c != '-' && c != '.'
  }

  predicate IriChar(c: char) {
    c > ' ' && c != '<' && c != '>' && c != '\"' && c != '{' && c != '}' && c != '|' && c != '^' && c != '`' && c != '\\'
  }

  predicate IriRef(s: string) {
    forall c | c in s :: IriChar(c)
  }

  predicate VarName(s: string) {
    s != "" && FirstChar(s[0]) && forall c | c in s :: VarChar(c)
  }

  /** A dot may be inside of a label, but not at its end. */
  predicate BlankLabel(s: string) {
    s != "" && FirstChar(s[0]) && s[|s| - 1] != '.' && forall c | c in s :: LabelChar(c)
  }

  /** How far a language tag goes on; a hyphen starts a subtag, and digits are for subtags only. */
  function TagRun(s: string, first: bool): (n: nat)
    ensures n <= |s|
  {
    if s == "" then 0
    else if Letter(s[0]) || (!first && Digit(s[0])) then 1 + TagRun(s[1..], first)
    else if s[0] == '-' && |s| > 1 && (Letter(s[1]) || Digit(s[1])) then 2 + TagRun(s[2..], false)
    else 0
  }

  predicate LangTag(s: string) {
    s != "" && Letter(s[0]) && TagRun(s[1..], true) == |s| - 1
  }

  predicate WhiteSpace(c: char) {
    c == ' ' || c == '\t' || c == '\r' || c == '\n'
  }

  function AfterLine(s: string): (r: string)
    ensures |r| <= |s|
  {
    if s == "" || s[0] == '\n' || s[0] == '\r' then s else AfterLine(s[1..])
  }

  /** White space and comments. */
  function Skip(s: string): (r: string)
    ensures |r| <= |s|
    decreases |s|
  {
    if s == "" then s
    else if WhiteSpace(s[0]) then Skip(s[1..])
    else if s[0] == '#' then Skip(AfterLine(s[1..]))
    else s
  }

  // Reading terms ---------------------------------------------------------------------------------------------------

  /** From after '<' on: an IRI, and what follows its '>'. */
  function ReadIri(s: string): (r: Option<(string, string)>)
    ensures r.Some? ==> IriRef(r.value.0) && |r.value.1| < |s|
  {
    if s == "" then None
    else if s[0] == '>' then Some(("", s[1..]))
    else if !IriChar(s[0]) then None
    else
      var (iri, rest) :- ReadIri(s[1..]);
      Some(([s[0]] + iri, rest))
  }

  /** The character that a backslash and this one stand for in a literal. */
  function EscapedChar(c: char): Option<char> {
    if c == 't' then Some('\t')
    else if c == 'b' then Some('\U{8}')
    else if c == 'n' then Some('\n')
    else if c == 'r' then Some('\r')
    else if c == 'f' then Some('\U{C}')
    else if c == '\\' || c == '\"' || c == '\'' then Some(c)
    else None
  }

  /** From after a quotation mark on: the characters of a literal, and what follows the closing mark. */
  function ReadString(s: string): (r: Option<(string, string)>)
    ensures r.Some? ==> |r.value.1| < |s|
    decreases |s|
  {
    if s == "" || s[0] == '\n' || s[0] == '\r' then None
    else if s[0] == '\"' then Some(("", s[1..]))
    else if s[0] == '\\' then
      if |s| == 1 then None
      else
        var c :- EscapedChar(s[1]);
        var (value, rest) :- ReadString(s[2..]);
        Some(([c] + value, rest))
    else
      var (value, rest) :- ReadString(s[1..]);
      Some(([s[0]] + value, rest))
  }

  function VarRun(s: string): (n: nat)
    ensures n <= |s| && (forall i | 0 <= i < n :: VarChar(s[i])) && (n < |s| ==> !VarChar(s[n]))
  {
    if s == "" || !VarChar(s[0]) then 0 else 1 + VarRun(s[1..])
  }

  /** From after '?' on: the longest name. */
  function ReadVar(s: string): (r: Option<(string, string)>)
    ensures r.Some? ==> VarName(r.value.0) && r.value.0 + r.value.1 == s
  {
    var n := VarRun(s);
    if n > 0 && FirstChar(s[0]) then Some((s[..n], s[n..])) else None
  }

  function LabelRun(s: string): (n: nat)
    ensures n <= |s| && (forall i | 0 <= i < n :: LabelChar(s[i])) && (n < |s| ==> !LabelChar(s[n]))
  {
    if s == "" || !LabelChar(s[0]) then 0 else 1 + LabelRun(s[1..])
  }

  /** A label does not end in a dot. */
  function WithoutDots(s: string, n: nat): (m: nat)
    requires n <= |s|
    ensures m <= n && (m > 0 ==> s[m - 1] != '.') && (n > 0 && s[n - 1] != '.' ==> m == n)
  {
    if n > 0 && s[n - 1] == '.' then WithoutDots(s, n - 1) else n
  }

  /** From after "_:" on: the longest label. */
  function ReadLabel(s: string): (r: Option<(string, string)>)
    ensures r.Some? ==> BlankLabel(r.value.0) && r.value.0 + r.value.1 == s
  {
    var n := WithoutDots(s, LabelRun(s));
    if n > 0 && FirstChar(s[0]) then Some((s[..n], s[n..])) else None
  }

  lemma {:induction false} TagRunIsTag(s: string, first: bool)
    ensures TagRun(s[..TagRun(s, first)], first) == TagRun(s, first)
    decreases |s|
  {
    var n := TagRun(s, first);
    if n > 0 {
      var k := if Letter(s[0]) || (!first && Digit(s[0])) then 1 else 2;
      TagRunIsTag(s[k..], first && k == 1);
      PrefixTail(s, n, k);
    }
  }

  lemma PrefixTail(s: string, n: nat, k: nat)
    requires k <= n <= |s|
    ensures s[..n][k..] == s[k..][..n - k]
  {
  }

  /** From after '@' on: the longest tag. */
  function ReadTag(s: string): (r: Option<(string, string)>)
    ensures r.Some? ==> LangTag(r.value.0) && r.value.0 + r.value.1 == s
  {
    if s == "" || !Letter(s[0]) then None
    else
      var n := 1 + TagRun(s[1..], true);
      TagRunIsTag(s[1..], true);
      assert s[..n][1..] == s[1..][..n - 1];
      Some((s[..n], s[n..]))
  }

  /** What may follow a literal's closing mark: nothing between, as it is written. */
  function ReadQualifier(value: string, s: string): (r: Option<(Term, string)>)
    ensures r.Some? ==> |r.value.1| <= |s|
  {
    if "@" <= s then
      var (tag, rest) :- ReadTag(s[1..]);
      Some((Tagged(value, tag), rest))
    else if "^^<" <= s then
      var (iri, rest) :- ReadIri(s[3..]);
      Some((Typed(value, iri), rest))
    else if "^^" <= s then None
    else Some((Plain(value), s))
  }

  function ReadTerm(s: string): (r: Option<(Term, string)>)
    ensures r.Some? ==> |r.value.1| < |s|
  {
    if "<" <= s then
      var (iri, rest) :- ReadIri(s[1..]);
      Some((Iri(iri), rest))
    else if "_:" <= s then
      var (id, rest) :- ReadLabel(s[2..]);
      Some((Blank(id), rest))
    else if "?" <= s then
      var (name, rest) :- ReadVar(s[1..]);
      Some((Variable(name), rest))
    else if "\"\"\"" <= s then None
    else if "\"" <= s then
      var (value, rest) :- ReadString(s[1..]);
      ReadQualifier(value, rest)
    else None
  }

  predicate Allowed(st: Statement, patterns: bool) {
    && (st.subject.Iri? || st.subject.Blank? || st.subject.Variable?)
    && (st.property.Iri? || st.property.Variable?)
    && (patterns ==> !st.subject.Blank? && !st.obj.Blank?)
  }

  /** A statement and its dot; blank nodes have no place in a pattern that is deleted. */
  function ReadStatement(s: string, patterns: bool): (r: Option<(Statement, string)>)
    ensures r.Some? ==> |r.value.1| < |s|
  {
    var (subject, s1) :- ReadTerm(Skip(s));
    var (verb, s2) :- ReadTerm(Skip(s1));
    var (obj, s3) :- ReadTerm(Skip(s2));
    var st, end := Statement(subject, verb, obj), Skip(s3);
    if "." <= end && Allowed(st, patterns) then Some((st, end[1..])) else None
  }

  // Reading updates -------------------------------------------------------------------------------------------------

  datatype Operation = DeleteWhere(patterns: seq<Statement>) | InsertWhere(statements: seq<Statement>)

  /** Statements up to the closing brace, and what follows it. */
  function ReadStatements(s: string, patterns: bool): (r: Option<(seq<Statement>, string)>)
    ensures r.Some? ==> |r.value.1| < |s|
    decreases |s|
  {
    var t := Skip(s);
    if "}" <= t then Some(([], t[1..]))
    else
      var (st, rest) :- ReadStatement(s, patterns);
      var (more, last) :- ReadStatements(rest, patterns);
      Some(([st] + more, last))
  }

  /** A keyword or a brace, and what follows it. */
  function Expect(s: string, token: string): (r: Option<string>)
    ensures r.Some? ==> |r.value| <= |s|
  {
    var t := Skip(s);
    if token <= t then Some(t[|token|..]) else None
  }

  function ReadBlock(s: string, patterns: bool): (r: Option<(seq<Statement>, string)>)
    ensures r.Some? ==> |r.value.1| < |s|
  {
    var body :- Expect(s, "{");
    ReadStatements(body, patterns)
  }

  /** A WHERE without patterns, and what follows it. */
  function ReadCondition(s: string): (r: Option<string>)
    ensures r.Some? ==> |r.value| < |s|
  {
    var pattern :- Expect(s, "WHERE");
    var (nothing, rest) :- ReadBlock(pattern, true);
    if nothing == [] then Some(rest) else None
  }

  /** DELETE WHERE with a block of patterns, or INSERT with a block of statements and an empty WHERE. */
  function ReadOperation(s: string): (r: Option<(Operation, string)>)
    ensures r.Some? ==> |r.value.1| < |s|
  {
    if Expect(s, "DELETE").Some? then
      var block :- Expect(Expect(s, "DELETE").value, "WHERE");
      var (patterns, rest) :- ReadBlock(block, true);
      Some((DeleteWhere(patterns), rest))
    else
      var block :- Expect(s, "INSERT");
      var (statements, condition) :- ReadBlock(block, false);
      var rest :- ReadCondition(condition);
      Some((InsertWhere(statements), rest))
  }

  /** Operations, each but the last followed by a semicolon. */
  function ReadUpdate(s: string): Option<seq<Operation>>
    decreases |s|
  {
    if Skip(s) == "" then Some([])
    else
      var (operation, rest) :- ReadOperation(s);
      if Skip(rest) == "" then Some([operation])
      else
        var next :- Expect(rest, ";");
        var more :- ReadUpdate(next);
        Some([operation] + more)
  }

  // What is meant ---------------------------------------------------------------------------------------------------

  /** Blank nodes are renamed, and in a pattern they become variables. */
  function MeantTerm(t: Term, patterns: bool): Term {
    if t.Blank? then if patterns then Variable("var" + t.id) else Blank("bn" + t.id) else t
  }

  function Meant(st: Statement, patterns: bool): Statement {
    Statement(MeantTerm(st.subject, patterns), MeantTerm(st.property, false), MeantTerm(st.obj, patterns))
  }

  /** A term that has a form in SPARQL. */
  predicate CleanTerm(t: Term, patterns: bool) {
    match t
    case Blank(id) => if patterns then VarName("var" + id) else BlankLabel("bn" + id)
    case Iri(iri) => IriRef(iri)
    case Plain(_) => true
    case Tagged(_, tag) => LangTag(tag)
    case Typed(_, dt) => IriRef(dt)
    case Variable(_) => false
  }

  predicate Clean(st: Statement, patterns: bool) {
    && CleanTerm(st.subject, patterns)
    && st.property.Iri? && CleanTerm(st.property, patterns)
    && CleanTerm(st.obj, patterns)
  }

  /** Different statements are meant differently. */
  lemma MeantIsInjective(a: Statement, b: Statement, patterns: bool)
    requires Meant(a, patterns) == Meant(b, patterns)
    requires !a.subject.Variable? && !a.obj.Variable? && !b.subject.Variable? && !b.obj.Variable?
    ensures a == b
  {
    SameMeaning(a.subject, b.subject, patterns);
    SameMeaning(a.property, b.property, false);
    SameMeaning(a.obj, b.obj, patterns);
  }

  lemma SameMeaning(a: Term, b: Term, patterns: bool)
    requires MeantTerm(a, patterns) == MeantTerm(b, patterns)
    requires patterns ==> !a.Variable? && !b.Variable?
    ensures a == b
  {
    if a.Blank? && b.Blank? {
      var lead := if patterns then "var" else "bn";
      assert (lead + a.id)[|lead|..] == a.id && (lead + b.id)[|lead|..] == b.id;
    }
  }

  // Terms read back -------------------------------------------------------------------------------------------------

  /** An escaped IRI is read only if it needed no escape, and then as itself. */
  lemma {:induction false} IriReadsIff(iri: string, rest: string)
    ensures IriRef(iri) ==> ReadIri(EscapeIri(iri) + ">" + rest) == Some((iri, rest))
    ensures ReadIri(EscapeIri(iri) + ">" + rest).Some? ==> IriRef(iri)
    decreases |iri|
  {
    EscapeIriIsPerCharacter(iri);
    EachReadsIff(iri, rest);
    assert ">" == ['>'];
  }

  lemma {:induction false} EachReadsIff(iri: string, rest: string)
    ensures IriRef(iri) ==> ReadIri(EscapeEach(iri, '>') + ['>'] + rest) == Some((iri, rest))
    ensures ReadIri(EscapeEach(iri, '>') + ['>'] + rest).Some? ==> IriRef(iri)
    decreases |iri|
  {
    hide EscapeEach, ReadIri, IriChar;
    if iri == "" {
      EmptyIri(rest);
    } else {
      var more := EscapeEach(iri[1..], '>') + ['>'] + rest;
      EachReadsIff(iri[1..], rest);
      EscapeEachStep(iri, '>');
      assert EscapeEach(iri, '>') + ['>'] + rest == EscapeChar(iri[0], '>') + more;
      IriStep(iri[0], more);
      assert iri == [iri[0]] + iri[1..];
    }
  }

  lemma EmptyIri(rest: string)
    ensures ReadIri(EscapeEach("", '>') + ['>'] + rest) == Some(("", rest))
  {
    assert EscapeEach("", '>') + ['>'] + rest == ['>'] + rest;
  }

  lemma EscapeEachStep(s: string, close: char)
    requires s != ""
    ensures EscapeEach(s, close) == EscapeChar(s[0], close) + EscapeEach(s[1..], close)
  {
  }

  lemma IriStep(c: char, more: string)
    ensures var r, m := ReadIri(EscapeChar(c, '>') + more), ReadIri(more);
            if IriChar(c) && m.Some? then r == Some(([c] + m.value.0, m.value.1)) else r == None
  {
    var s := EscapeChar(c, '>') + more;
    assert s[0] == EscapeChar(c, '>')[0];
    if IriChar(c) {
      assert s[1..] == more;
    }
  }

  /** A literal is always read as itself. */
  lemma {:induction false} StringReads(value: string, rest: string)
    ensures ReadString(EscapeEach(value, '\"') + ['\"'] + rest) == Some((value, rest))
    decreases |value|
  {
    hide EscapeEach, ReadString;
    if value == "" {
      EmptyString(rest);
    } else {
      var more := EscapeEach(value[1..], '\"') + ['\"'] + rest;
      StringReads(value[1..], rest);
      EscapeEachStep(value, '\"');
      assert EscapeEach(value, '\"') + ['\"'] + rest == EscapeChar(value[0], '\"') + more;
      StringStep(value[0], more);
      assert value == [value[0]] + value[1..];
    }
  }

  lemma EmptyString(rest: string)
    ensures ReadString(EscapeEach("", '\"') + ['\"'] + rest) == Some(("", rest))
  {
    assert EscapeEach("", '\"') + ['\"'] + rest == ['\"'] + rest;
  }

  lemma StringStep(c: char, more: string)
    requires ReadString(more).Some?
    ensures ReadString(EscapeChar(c, '\"') + more) == Some(([c] + ReadString(more).value.0, ReadString(more).value.1))
  {
    hide ReadString, EscapedChar, EscapeChar;
    EscapeIs(c);
    if e :| EscapeChar(c, '\"') == ['\\', e] && EscapedChar(e) == Some(c) {
      EscapeReads(e, c, more);
    } else {
      CharReads(c, more);
    }
  }

  lemma EscapeIs(c: char)
    ensures (exists e :: EscapeChar(c, '\"') == ['\\', e] && EscapedChar(e) == Some(c))
            || (EscapeChar(c, '\"') == [c] && c != '\\' && c != '\"' && c != '\n' && c != '\r')
  {
    var s := EscapeChar(c, '\"');
    if |s| == 2 {
      assert s == ['\\', s[1]] && EscapedChar(s[1]) == Some(c);
    }
  }

  lemma EscapeReads(e: char, c: char, more: string)
    requires EscapedChar(e) == Some(c) && ReadString(more).Some?
    ensures ReadString(['\\', e] + more) == Some(([c] + ReadString(more).value.0, ReadString(more).value.1))
  {
    hide EscapedChar;
    assert (['\\', e] + more)[2..] == more;
  }

  lemma CharReads(c: char, more: string)
    requires c != '\\' && c != '\"' && c != '\n' && c != '\r' && ReadString(more).Some?
    ensures ReadString([c] + more) == Some(([c] + ReadString(more).value.0, ReadString(more).value.1))
  {
    assert ([c] + more)[1..] == more;
  }

  lemma LabelReads(id: string, rest: string)
    requires rest != "" && rest[0] == ' '
    ensures BlankLabel(id) ==> ReadLabel(id + rest) == Some((id, rest))
  {
    if BlankLabel(id) {
      var s := id + rest;
      var n := LabelRun(s);
      assert !LabelChar(' ');
      assert forall i | 0 <= i < |id| :: s[i] == id[i] && LabelChar(s[i]);
      assert s[|id|] == ' ';
      assert n == |id| && s[n - 1] == id[|id| - 1];
      assert s[..n] == id && s[n..] == rest;
    }
  }

  lemma VarReads(name: string, rest: string)
    requires rest != "" && rest[0] == ' '
    ensures VarName(name) ==> ReadVar(name + rest) == Some((name, rest))
  {
    if VarName(name) {
      var s := name + rest;
      var n := VarRun(s);
      assert !VarChar(' ');
      assert forall i | 0 <= i < |name| :: s[i] == name[i] && VarChar(s[i]);
      assert s[|name|] == ' ';
      assert s[..n] == name && s[n..] == rest;
    }
  }

  lemma {:induction false} TagRunStops(s: string, first: bool, rest: string)
    requires TagRun(s, first) == |s| && rest != "" && rest[0] == ' '
    ensures TagRun(s + rest, first) == |s|
    decreases |s|
  {
    var all := s + rest;
    if s == "" {
      assert all == rest;
    } else {
      var k := if Letter(s[0]) || (!first && Digit(s[0])) then 1 else 2;
      assert all[0] == s[0] && (k == 2 ==> all[1] == s[1]);
      assert all[k..] == s[k..] + rest;
      TagRunStops(s[k..], first && k == 1, rest);
    }
  }

  lemma TagReads(tag: string, rest: string)
    requires rest != "" && rest[0] == ' '
    ensures LangTag(tag) ==> ReadTag(tag + rest) == Some((tag, rest))
  {
    if LangTag(tag) {
      var s := tag + rest;
      assert s[0] == tag[0] && s[1..] == tag[1..] + rest;
      TagRunStops(tag[1..], true, rest);
      assert s[..|tag|] == tag && s[|tag|..] == rest;
    }
  }

  function WrittenTerm(term: string, dt: string, language: string, patterns: bool): string {
    if patterns then PatternTermText(term, dt, language) else TermText(term, dt, language)
  }

  lemma QualifierReadsIff(value: string, dt: string, language: string, rest: string)
    requires dt != "" && rest != "" && rest[0] == ' '
    ensures var t := TermOf(value, dt, language); var r := ReadQualifier(value, QualifierText(dt, language) + rest);
            && (CleanTerm(t, false) ==> r == Some((t, rest)))
            && (r.Some? && r.value.0 == t ==> CleanTerm(t, false))
  {
    hide ReadIri, ReadTag, IriRef, LangTag, EscapeIri, StripTag;
    var s := QualifierText(dt, language) + rest;
    if dt == LANG_STRING && language != "" {
      var tag := StripTag(language);
      assert s[1..] == tag + rest;
      TagReads(tag, rest);
    } else if dt != XSD_STRING {
      assert s == "^^<" + (EscapeIri(dt) + ">" + rest);
      assert s[3..] == EscapeIri(dt) + ">" + rest;
      IriReadsIff(dt, rest);
    } else {
      assert s == rest;
    }
  }

  /** A term is read as what is meant exactly when it is clean, and then the rest is left. */
  lemma TermReadsIff(term: string, dt: string, language: string, patterns: bool, rest: string)
    requires rest != "" && rest[0] == ' '
    ensures var t := TermOf(term, dt, language); var r := ReadTerm(WrittenTerm(term, dt, language, patterns) + rest);
            && (CleanTerm(t, patterns) ==> r == Some((MeantTerm(t, patterns), rest)))
            && (r.Some? && r.value.0 == MeantTerm(t, patterns) ==> CleanTerm(t, patterns))
  {
    hide ReadIri, ReadLabel, ReadVar, ReadString, ReadQualifier, EscapeIri, EscapeLiteral, QualifierText, IriRef, VarName, BlankLabel,
      LangTag;
    if dt != "" {
      LiteralReadsIff(term, dt, language, patterns, rest);
    } else if IsBlank(term) {
      BlankReadsIff(term, patterns, rest);
    } else {
      var s := "<" + EscapeIri(term) + ">" + rest;
      assert s[1..] == EscapeIri(term) + ">" + rest;
      IriReadsIff(term, rest);
    }
  }

  lemma BlankReadsIff(term: string, patterns: bool, rest: string)
    requires IsBlank(term) && rest != "" && rest[0] == ' '
    ensures var t := TermOf(term, "", ""); var r := ReadTerm(WrittenTerm(term, "", "", patterns) + rest);
            && (CleanTerm(t, patterns) ==> r == Some((MeantTerm(t, patterns), rest)))
            && (r.Some? && r.value.0 == MeantTerm(t, patterns) ==> CleanTerm(t, patterns))
  {
    hide ReadLabel, ReadVar, VarName, BlankLabel;
    var s := WrittenTerm(term, "", "", patterns) + rest;
    if patterns {
      assert s[0] == '?' && s[1..] == "var" + term[2..] + rest;
      VarReads("var" + term[2..], rest);
    } else {
      assert s[0] == '_' && s[1] == ':' && s[2..] == "bn" + term[2..] + rest;
      LabelReads("bn" + term[2..], rest);
    }
  }

  lemma LiteralReadsIff(value: string, dt: string, language: string, patterns: bool, rest: string)
    requires dt != "" && rest != "" && rest[0] == ' '
    ensures var t := TermOf(value, dt, language); var r := ReadTerm(WrittenTerm(value, dt, language, patterns) + rest);
            && (CleanTerm(t, patterns) ==> r == Some((MeantTerm(t, patterns), rest)))
            && (r.Some? && r.value.0 == MeantTerm(t, patterns) ==> CleanTerm(t, patterns))
  {
    hide ReadTerm, ReadQualifier, EscapeLiteral, QualifierText, IriRef, LangTag;
    var after := QualifierText(dt, language) + rest;
    LiteralText(value, dt, language, patterns, rest);
    NoLongQuote(value, dt, language, rest);
    QuotedReads(value, after);
    QualifierReadsIff(value, dt, language, rest);
  }

  lemma LiteralText(value: string, dt: string, language: string, patterns: bool, rest: string)
    requires dt != ""
    ensures WrittenTerm(value, dt, language, patterns) + rest
            == "\"" + (EscapeLiteral(value) + ['\"'] + (QualifierText(dt, language) + rest))
  {
    hide EscapeLiteral, QualifierText;
    assert "\"" == ['\"'];
    Regroup5("\"", EscapeLiteral(value), ['\"'], QualifierText(dt, language), rest);
  }

  lemma Regroup5(a: string, b: string, c: string, d: string, e: string)
    ensures a + b + c + d + e == a + (b + c + (d + e))
  {
  }

  lemma QuotedReads(value: string, after: string)
    requires !("\"\"\"" <= "\"" + (EscapeLiteral(value) + ['\"'] + after))
    ensures ReadTerm("\"" + (EscapeLiteral(value) + ['\"'] + after)) == ReadQualifier(value, after)
  {
    hide ReadString, ReadQualifier, EscapeLiteral;
    var s := "\"" + (EscapeLiteral(value) + ['\"'] + after);
    assert s[0] == '\"' && s[1..] == EscapeLiteral(value) + ['\"'] + after;
    EscapeLiteralIsPerCharacter(value);
    StringReads(value, after);
  }

  /** An empty literal is not taken for the start of a long quote. */
  lemma NoLongQuote(value: string, dt: string, language: string, rest: string)
    requires dt != "" && rest != "" && rest[0] == ' '
    ensures !("\"\"\"" <= "\"" + (EscapeLiteral(value) + ['\"'] + (QualifierText(dt, language) + rest)))
  {
    EscapeLiteralIsPerCharacter(value);
    var e, q := EscapeEach(value, '\"'), QualifierText(dt, language) + rest;
    var s := "\"" + (e + ['\"'] + q);
    assert q[0] != '\"';
    if value != "" {
      assert e[0] == EscapeChar(value[0], '\"')[0] != '\"';
      assert s[1] == e[0];
    } else {
      assert s[2] == q[0];
    }
  }

  // Statements read back --------------------------------------------------------------------------------------------

  lemma SkipsOne(c: char, t: string)
    requires WhiteSpace(c)
    ensures Skip([c] + t) == Skip(t)
  {
    assert ([c] + t)[1..] == t;
  }

  lemma SkipStays(t: string)
    requires t != "" && !WhiteSpace(t[0]) && t[0] != '#'
    ensures Skip(t) == t
  {
  }

  lemma TermStarts(term: string, dt: string, language: string, patterns: bool, rest: string)
    ensures var s := WrittenTerm(term, dt, language, patterns) + rest; Skip(s) == s && Skip(" " + s) == s && Skip("\t" + s) == s
  {
    hide EscapeIri, EscapeLiteral, QualifierText;
    var w := WrittenTerm(term, dt, language, patterns);
    assert w[0] == '_' || w[0] == '?' || w[0] == '<' || w[0] == '\"';
    SkipStays(w + rest);
    SkipsOne(' ', w + rest);
    SkipsOne('\t', w + rest);
  }

  /** The line written for a triple, as a pattern or as a statement. */
  function LineOf(t: Triple, patterns: bool): string {
    if patterns then PatternText(t) else TripleText(t)
  }

  lemma LinePieces(a: string, p: string, o: string, rest: string)
    ensures "\t" + a + " " + p + " " + o + " .\n" + rest == "\t" + (a + (" " + (p + (" " + (o + (" ." + ("\n" + rest)))))))
  {
    Regrouped("\t", a, " ", p, o, " .", "\n", rest);
    assert " ." + "\n" == " .\n";
  }

  lemma Regrouped(t: string, a: string, b: string, p: string, o: string, d: string, n: string, rest: string)
    ensures t + a + b + p + b + o + (d + n) + rest == t + (a + (b + (p + (b + (o + (d + (n + rest)))))))
  {
  }

  /** What comes after the last term: the dot. */
  lemma DotReads(rest: string)
    ensures Skip(" ." + rest) == "." + rest && ("." + rest)[1..] == rest
  {
    SkipStays("." + rest);
    SkipsOne(' ', "." + rest);
    assert " ." + rest == " " + ("." + rest);
  }

  /** The line of a triple is read as its statement exactly when the statement is clean. */
  lemma LineReadsIff(t: Triple, patterns: bool, rest: string)
    ensures var st := StatementOf(t); var r := ReadStatement(LineOf(t, patterns) + rest, patterns);
            && (Clean(st, patterns) ==> r == Some((Meant(st, patterns), "\n" + rest)))
            && (r.Some? && r.value.0 == Meant(st, patterns) ==> Clean(st, patterns))
  {
    hide ReadTerm, Skip, TermOf, CleanTerm, MeantTerm, WrittenTerm, PatternTermText, TermText;
    var st := StatementOf(t);
    var a, p := WrittenTerm(t.subject, "", "", patterns), WrittenTerm(t.property, "", "", false);
    var o := WrittenTerm(t.obj, t.dt, t.language, patterns);
    var r3 := " ." + ("\n" + rest);
    var r2 := " " + (o + r3);
    var r1 := " " + (p + r2);
    LineIs(t, patterns);
    LinePieces(a, p, o, rest);
    TermStarts(t.subject, "", "", patterns, r1);
    TermStarts(t.property, "", "", false, r2);
    TermStarts(t.obj, t.dt, t.language, patterns, r3);
    DotReads("\n" + rest);
    TermReadsIff(t.subject, "", "", patterns, r1);
    TermReadsIff(t.property, "", "", false, r2);
    TermReadsIff(t.obj, t.dt, t.language, patterns, r3);
    KindsOfTerms(t, patterns);
  }

  lemma LineIs(t: Triple, patterns: bool)
    ensures LineOf(t, patterns)
            == "\t" + WrittenTerm(t.subject, "", "", patterns) + " " + WrittenTerm(t.property, "", "", false) + " "
               + WrittenTerm(t.obj, t.dt, t.language, patterns) + " .\n"
  {
  }

  /** Which terms a statement is made of, and where they may stand. */
  lemma KindsOfTerms(t: Triple, patterns: bool)
    ensures var st := StatementOf(t); var m := Meant(st, patterns);
            && (Allowed(m, patterns) <==> st.property.Iri?)
            && (st.property.Iri? ==> CleanTerm(st.property, patterns) == CleanTerm(st.property, false))
  {
  }

  // Blocks read back ------------------------------------------------------------------------------------------------

  function LinesOf(ts: seq<Triple>, patterns: bool): string {
    if ts == [] then "" else LineOf(ts[0], patterns) + LinesOf(ts[1..], patterns)
  }

  function MeaningsOf(ts: seq<Triple>, patterns: bool): (r: seq<Statement>)
    ensures |r| == |ts| && forall i | 0 <= i < |r| :: r[i] == Meant(StatementOf(ts[i]), patterns)
  {
    if ts == [] then [] else [Meant(StatementOf(ts[0]), patterns)] + MeaningsOf(ts[1..], patterns)
  }

  predicate AllClean(ts: seq<Triple>, patterns: bool) {
    forall t | t in ts :: Clean(StatementOf(t), patterns)
  }

  /** Lines up to the brace are read as what they mean exactly when all of them are clean. */
  lemma {:induction false} LinesReadIff(ts: seq<Triple>, patterns: bool, rest: string, lead: string)
    requires lead == "" || lead == "\n"
    ensures var r := ReadStatements(lead + (LinesOf(ts, patterns) + ("}" + rest)), patterns);
            && (AllClean(ts, patterns) ==> r == Some((MeaningsOf(ts, patterns), rest)))
            && (r.Some? && r.value.0 == MeaningsOf(ts, patterns) ==> AllClean(ts, patterns))
    decreases |ts|
  {
    hide ReadStatements, LineOf, Clean, Meant, StatementOf;
    if ts == [] {
      assert LinesOf(ts, patterns) + ("}" + rest) == "}" + rest;
      BlockEnds(lead, rest, patterns);
    } else {
      var more := LinesOf(ts[1..], patterns) + ("}" + rest);
      LinesReadIff(ts[1..], patterns, rest, "\n");
      assert ts == [ts[0]] + ts[1..];
      assert LinesOf(ts, patterns) + ("}" + rest) == LineOf(ts[0], patterns) + more;
      LineThenLines(ts[0], patterns, more, lead);
      assert MeaningsOf(ts, patterns)[1..] == MeaningsOf(ts[1..], patterns);
    }
  }

  lemma BlockEnds(lead: string, rest: string, patterns: bool)
    requires lead == "" || lead == "\n"
    ensures ReadStatements(lead + ("}" + rest), patterns) == Some(([], rest))
  {
    SkipStays("}" + rest);
    assert ("}" + rest)[1..] == rest;
    if lead == "\n" {
      SkipsOne('\n', "}" + rest);
    } else {
      assert lead + ("}" + rest) == "}" + rest;
    }
  }

  function StatementThen(st: Statement, more: Option<(seq<Statement>, string)>): Option<(seq<Statement>, string)> {
    var (statements, rest) :- more;
    Some(([st] + statements, rest))
  }

  lemma LineThenLines(t: Triple, patterns: bool, more: string, lead: string)
    requires lead == "" || lead == "\n"
    ensures var st := StatementOf(t); var r := ReadStatements(lead + (LineOf(t, patterns) + more), patterns);
            && (Clean(st, patterns) ==>
                  r == StatementThen(Meant(st, patterns), ReadStatements("\n" + more, patterns)))
            && (r.Some? ==> r.value.0 != [])
            && (r.Some? && r.value.0[0] == Meant(st, patterns) ==> Clean(st, patterns))
  {
    hide ReadStatement, Skip, Clean, Meant, StatementOf, LineOf;
    var s := LineOf(t, patterns) + more;
    LineReadsIff(t, patterns, more);
    LineStarts(t, patterns, more, lead);
    SameAfterSkip(lead + s, s, patterns);
  }

  lemma LineStarts(t: Triple, patterns: bool, more: string, lead: string)
    requires lead == "" || lead == "\n"
    ensures var s := LineOf(t, patterns) + more; Skip(lead + s) == Skip(s) && !("}" <= Skip(s))
  {
    hide Skip, TermText, PatternTermText, WrittenTerm;
    var a := WrittenTerm(t.subject, "", "", patterns);
    var tail := " " + WrittenTerm(t.property, "", "", false) + " " + WrittenTerm(t.obj, t.dt, t.language, patterns) + " .\n" + more;
    LineIs(t, patterns);
    assert LineOf(t, patterns) + more == "\t" + (a + tail);
    TermStarts(t.subject, "", "", patterns, tail);
    NoBrace(t.subject, patterns, tail);
    if lead == "\n" {
      SkipsOne('\n', LineOf(t, patterns) + more);
    } else {
      assert lead + (LineOf(t, patterns) + more) == LineOf(t, patterns) + more;
    }
  }

  lemma NoBrace(term: string, patterns: bool, rest: string)
    ensures !("}" <= WrittenTerm(term, "", "", patterns) + rest)
  {
    hide EscapeIri;
    var w := WrittenTerm(term, "", "", patterns);
    assert w[0] == '_' || w[0] == '?' || w[0] == '<';
    assert (w + rest)[0] == w[0];
  }

  lemma SameAfterSkip(s: string, s': string, patterns: bool)
    requires Skip(s) == Skip(s')
    ensures ReadStatement(s, patterns) == ReadStatement(s', patterns)
  {
  }

  // Updates read back -----------------------------------------------------------------------------------------------

  const NO_CHANGE := "INSERT {} WHERE {}"
  const OPEN_DELETE := "DELETE WHERE {\n"
  const CLOSE_DELETE := "};\n"
  const OPEN_INSERT := "INSERT {\n"
  const CLOSE_INSERT := "}\nWHERE {\n};\n"

  function DeleteText(ts: seq<Triple>): string {
    if ts == [] then "" else OPEN_DELETE + LinesOf(ts, true) + CLOSE_DELETE
  }

  /** The INSERT part of a payload; empty when nothing is added. */
  function InsertText(ts: seq<Triple>): string {
    if ts == [] then "" else OPEN_INSERT + LinesOf(ts, false) + CLOSE_INSERT
  }

  function PayloadText(removed: seq<Triple>, added: seq<Triple>): string {
    if removed == [] && added == [] then NO_CHANGE else DeleteText(removed) + InsertText(added)
  }

  /** What a payload is meant to do, in order. */
  function OperationsOf(removed: seq<Triple>, added: seq<Triple>): seq<Operation> {
    if removed == [] && added == [] then [InsertWhere([])]
    else
      (if removed == [] then [] else [DeleteWhere(MeaningsOf(removed, true))])
      + (if added == [] then [] else [InsertWhere(MeaningsOf(added, false))])
  }

  lemma ExpectsKeyword(token: string, rest: string, lead: string)
    requires token != "" && !WhiteSpace(token[0]) && token[0] != '#' && (lead == "" || lead == " " || lead == "\n")
    ensures Expect(lead + (token + rest), token) == Some(rest)
  {
    SkipStays(token + rest);
    if lead == "" {
      assert lead + (token + rest) == token + rest;
    } else {
      SkipsOne(lead[0], token + rest);
      assert lead == [lead[0]];
    }
    assert (token + rest)[|token|..] == rest;
  }

  lemma DeleteOpens(body: string)
    ensures Expect(OPEN_DELETE + body, "DELETE").Some?
    ensures Expect(Expect(OPEN_DELETE + body, "DELETE").value, "WHERE") == Some(" {" + ("\n" + body))
    ensures Skip(OPEN_DELETE + body) != ""
  {
    hide Expect;
    var tail := " {" + ("\n" + body);
    assert " " + "WHERE" + " {" + "\n" == " WHERE {\n" && "DELETE" + " WHERE {\n" == OPEN_DELETE;
    Assoc("DELETE", " WHERE {\n", body);
    FourPieces(" ", "WHERE", " {", "\n", body);
    assert "" + ("DELETE" + (" WHERE {\n" + body)) == OPEN_DELETE + body;
    ExpectsKeyword("DELETE", " WHERE {\n" + body, "");
    ExpectsKeyword("WHERE", tail, " ");
    SkipStays(OPEN_DELETE + body);
  }

  lemma Assoc(a: string, b: string, c: string)
    ensures a + b + c == a + (b + c)
  {
  }

  lemma FourPieces(a: string, b: string, c: string, d: string, e: string)
    ensures a + b + c + d + e == a + (b + (c + (d + e)))
  {
  }

  lemma BlockOpens(body: string, patterns: bool)
    ensures ReadBlock(" {" + body, patterns) == ReadStatements(body, patterns)
  {
    hide Expect;
    ExpectsKeyword("{", body, " ");
    assert " {" == " " + "{";
    Assoc(" ", "{", body);
  }

  lemma InsertOpens(body: string)
    ensures Expect(OPEN_INSERT + body, "DELETE").None?
    ensures Expect(OPEN_INSERT + body, "INSERT") == Some(" {" + ("\n" + body))
    ensures Skip(OPEN_INSERT + body) != ""
  {
    var s := OPEN_INSERT + body;
    SkipStays(s);
    assert s[0] == 'I';
    hide Expect;
    assert "INSERT" + " {" + "\n" == OPEN_INSERT;
    FourPieces("", "INSERT", " {", "\n", body);
    assert "" + "INSERT" + " {" + "\n" + body == s;
    ExpectsKeyword("INSERT", " {" + ("\n" + body), "");
  }

  /** The closing lines of an INSERT: an empty WHERE. */
  lemma EmptyWhere()
    ensures ReadCondition("\nWHERE {\n};\n") == Some(";\n")
  {
    hide Expect;
    assert "\n" + ("WHERE" + " {\n};\n") == "\nWHERE {\n};\n";
    ExpectsKeyword("WHERE", " {\n};\n", "\n");
    assert " {" + ("\n" + ("}" + ";\n")) == " {\n};\n";
    BlockOpens("\n" + ("}" + ";\n"), true);
    BlockEnds("\n", ";\n", true);
  }

  lemma DeleteReadsIff(ts: seq<Triple>, rest: string)
    ensures var r := ReadOperation(OPEN_DELETE + LinesOf(ts, true) + "}" + rest);
            && (AllClean(ts, true) ==> r == Some((DeleteWhere(MeaningsOf(ts, true)), rest)))
            && (r.Some? && r.value.0 == DeleteWhere(MeaningsOf(ts, true)) ==> AllClean(ts, true))
  {
    hide Expect, ReadBlock, ReadStatements, LinesOf, MeaningsOf, AllClean;
    var body := LinesOf(ts, true) + ("}" + rest);
    FourPieces("", OPEN_DELETE, LinesOf(ts, true), "}", rest);
    assert OPEN_DELETE + LinesOf(ts, true) + "}" + rest == OPEN_DELETE + body;
    DeleteOpens(body);
    BlockOpens("\n" + body, true);
    LinesReadIff(ts, true, rest, "\n");
  }

  lemma InsertReadsIff(ts: seq<Triple>)
    ensures var r := ReadOperation(OPEN_INSERT + LinesOf(ts, false) + CLOSE_INSERT);
            && (AllClean(ts, false) ==> r == Some((InsertWhere(MeaningsOf(ts, false)), ";\n")))
            && (r.Some? && r.value.0 == InsertWhere(MeaningsOf(ts, false)) ==> AllClean(ts, false))
  {
    hide Expect, ReadBlock, ReadStatements, LinesOf, MeaningsOf, AllClean, ReadCondition;
    var rest := "\nWHERE {\n};\n";
    assert "}" + rest == CLOSE_INSERT;
    var body := LinesOf(ts, false) + ("}" + rest);
    Assoc(OPEN_INSERT, LinesOf(ts, false), CLOSE_INSERT);
    InsertOpens(body);
    BlockOpens("\n" + body, false);
    LinesReadIff(ts, false, rest, "\n");
    EmptyWhere();
  }

  lemma SameUpdateAfterSkip(s: string, s': string)
    requires Skip(s) == Skip(s')
    ensures ReadUpdate(s) == ReadUpdate(s')
  {
    hide Skip, ReadBlock, ReadCondition;
  }

  lemma SemicolonReads(next: string)
    ensures Skip(";\n" + next) != "" && Expect(";\n" + next, ";") == Some("\n" + next)
    ensures ReadUpdate("\n" + next) == ReadUpdate(next)
  {
    hide ReadUpdate;
    SkipStays(";\n" + next);
    assert (";\n" + next)[1..] == "\n" + next;
    SkipsOne('\n', next);
    SameUpdateAfterSkip("\n" + next, next);
  }

  function OperationThen(operation: Operation, more: Option<seq<Operation>>): Option<seq<Operation>> {
    var operations :- more;
    Some([operation] + operations)
  }

  /** An operation with a semicolon, and what follows. */
  lemma UpdateSteps(s: string, operation: Operation, next: string)
    requires ReadOperation(s) == Some((operation, ";\n" + next)) && Skip(s) != ""
    ensures ReadUpdate(s) == OperationThen(operation, ReadUpdate(next))
  {
    hide ReadOperation, Skip, Expect;
    SemicolonReads(next);
  }

  lemma UpdateStarts(s: string)
    requires Skip(s) != "" && ReadUpdate(s).Some?
    ensures ReadOperation(s).Some? && ReadUpdate(s).value != [] && ReadUpdate(s).value[0] == ReadOperation(s).value.0
  {
    hide ReadOperation, Skip, Expect;
  }

  lemma NothingReads()
    ensures ReadUpdate("") == Some([])
  {
  }

  lemma NoChangeReads()
    ensures ReadUpdate(NO_CHANGE) == Some([InsertWhere([])])
  {
    hide ReadUpdate, ReadStatements, Expect, ReadBlock;
    NoChangeOperation();
    assert NO_CHANGE[0] == 'I';
    SkipStays(NO_CHANGE);
    LastOperation(NO_CHANGE, InsertWhere([]));
  }

  lemma LastOperation(s: string, operation: Operation)
    requires ReadOperation(s) == Some((operation, "")) && Skip(s) != ""
    ensures ReadUpdate(s) == Some([operation])
  {
    hide ReadOperation;
  }

  lemma NoChangeOperation()
    ensures ReadOperation(NO_CHANGE) == Some((InsertWhere([]), ""))
  {
    hide ReadBlock, ReadCondition, Expect;
    NoChangeOpens();
    EmptyBlock(" WHERE {}", false);
    EmptyCondition();
    assert " {" + ("}" + " WHERE {}") == " {} WHERE {}";
  }

  lemma NoChangeOpens()
    ensures Expect(NO_CHANGE, "DELETE").None? && Expect(NO_CHANGE, "INSERT") == Some(" {} WHERE {}")
  {
    assert "INSERT" + " {} WHERE {}" == NO_CHANGE && "" + NO_CHANGE == NO_CHANGE;
    ExpectsKeyword("INSERT", " {} WHERE {}", "");
    SkipStays(NO_CHANGE);
    assert NO_CHANGE[0] == 'I';
  }

  lemma EmptyBlock(rest: string, patterns: bool)
    ensures ReadBlock(" {" + ("}" + rest), patterns) == Some(([], rest))
  {
    hide ReadBlock, ReadStatements;
    BlockOpens("}" + rest, patterns);
    BlockEnds("", rest, patterns);
    assert "" + ("}" + rest) == "}" + rest;
  }

  lemma EmptyCondition()
    ensures ReadCondition(" WHERE {}") == Some("")
  {
    hide ReadBlock, Expect;
    assert " " + ("WHERE" + " {}") == " WHERE {}" && " {" + ("}" + "") == " {}";
    ExpectsKeyword("WHERE", " {}", " ");
    EmptyBlock("", true);
  }

  lemma InsertUpdateReadsIff(added: seq<Triple>)
    requires added != []
    ensures var r := ReadUpdate(InsertText(added));
            && (AllClean(added, false) ==> r == Some([InsertWhere(MeaningsOf(added, false))]))
            && (r.Some? ==> r.value != [])
            && (r.Some? && r.value[0] == InsertWhere(MeaningsOf(added, false)) ==> AllClean(added, false))
  {
    hide ReadUpdate, ReadOperation, LinesOf, MeaningsOf, AllClean;
    var s := InsertText(added);
    InsertReadsIff(added);
    InsertOpens(LinesOf(added, false) + CLOSE_INSERT);
    Assoc(OPEN_INSERT, LinesOf(added, false), CLOSE_INSERT);
    if AllClean(added, false) {
      assert ";\n" + "" == ";\n";
      UpdateSteps(s, InsertWhere(MeaningsOf(added, false)), "");
      NothingReads();
      assert [InsertWhere(MeaningsOf(added, false))] + [] == [InsertWhere(MeaningsOf(added, false))];
    }
    if ReadUpdate(s).Some? {
      UpdateStarts(s);
    }
  }

  lemma DeleteUpdateReadsIff(removed: seq<Triple>, insert: string)
    requires removed != []
    ensures var r := ReadUpdate(DeleteText(removed) + insert);
            && (AllClean(removed, true) ==> r == OperationThen(DeleteWhere(MeaningsOf(removed, true)), ReadUpdate(insert)))
            && (r.Some? ==> r.value != [])
            && (r.Some? && r.value[0] == DeleteWhere(MeaningsOf(removed, true)) ==> AllClean(removed, true))
  {
    hide ReadUpdate, ReadOperation, LinesOf, MeaningsOf, AllClean;
    var s := DeleteText(removed) + insert;
    var head := OPEN_DELETE + LinesOf(removed, true);
    assert "}" + ";\n" == CLOSE_DELETE;
    DeletePieces(head, "}", ";\n", insert);
    DeleteReadsIff(removed, ";\n" + insert);
    Assoc(OPEN_DELETE, LinesOf(removed, true), CLOSE_DELETE + insert);
    Assoc(head, CLOSE_DELETE, insert);
    DeleteOpens(LinesOf(removed, true) + (CLOSE_DELETE + insert));
    if AllClean(removed, true) {
      UpdateSteps(s, DeleteWhere(MeaningsOf(removed, true)), insert);
    }
    if ReadUpdate(s).Some? {
      UpdateStarts(s);
    }
  }

  lemma DeletePieces(a: string, b: string, c: string, d: string)
    ensures a + (b + c) + d == a + b + (c + d)
  {
  }

  /**
   A payload is read as what is meant, both operations in order, exactly when every removed triple has a form as a
   pattern and every added one as a statement.
   */
  lemma UpdateReadsIff(removed: seq<Triple>, added: seq<Triple>)
    ensures ReadUpdate(PayloadText(removed, added)) == Some(OperationsOf(removed, added))
            <==> AllClean(removed, true) && AllClean(added, false)
  {
    hide ReadUpdate, DeleteText, InsertText, MeaningsOf;
    if removed == [] && added == [] {
      NoChangeReads();
    } else if removed == [] {
      EmptyTexts();
      assert "" + InsertText(added) == InsertText(added);
      assert [] + [InsertWhere(MeaningsOf(added, false))] == [InsertWhere(MeaningsOf(added, false))];
      InsertUpdateReadsIff(added);
    } else {
      hide AllClean;
      DeleteUpdateReadsIff(removed, InsertText(added));
      if added != [] {
        InsertUpdateReadsIff(added);
        AfterDelete(DeleteWhere(MeaningsOf(removed, true)), ReadUpdate(InsertText(added)), InsertWhere(MeaningsOf(added, false)));
      } else {
        EmptyTexts();
        NothingReads();
        NothingIsClean();
      }
    }
  }

  lemma EmptyTexts()
    ensures DeleteText([]) == "" && InsertText([]) == ""
  {
  }

  lemma AfterDelete(a: Operation, more: Option<seq<Operation>>, b: Operation)
    ensures OperationThen(a, more) == Some([a] + [b]) <==> more == Some([b])
  {
    if more.Some? && OperationThen(a, more) == Some([a] + [b]) {
      assert ([a] + more.value)[1..] == more.value && ([a] + [b])[1..] == [b];
    }
  }

  lemma NothingIsClean()
    ensures AllClean([], false) && AllClean([], true)
  {
  }

  // A label that breaks the update ----------------------------------------------------------------------------------

  const HYPHENATED := "_:address-1"

  /** A hyphen is for labels of blank nodes and not for variables, so this subject can be inserted but not deleted. */
  lemma HyphenIsNoVariable(st: Statement)
    requires st.subject == TermOf(HYPHENATED, "", "")
    ensures CleanTerm(st.subject, false) && !Clean(st, true)
  {
    hide BlankLabel, VarName;
    assert HYPHENATED[2..] == "address-1";
    assert "bn" + "address-1" == "bnaddress-1" && "var" + "address-1" == "varaddress-1";
    HyphenInLabel();
    HyphenInName();
  }

  lemma HyphenInLabel()
    ensures BlankLabel("bnaddress-1")
  {
    forall c | c in "bnaddress-1" ensures LabelChar(c) {
      assert 'a' <= c <= 'z' || c == '-' || c == '1';
    }
  }

  lemma HyphenInName()
    ensures !VarName("varaddress-1")
  {
    assert "varaddress-1"[10] == '-' && '-' in "varaddress-1";
  }

  /** An update that deletes something about it first is not SPARQL: nothing is read, and nothing changed. */
  lemma HyphenBreaksUpdate(removed: seq<Triple>, added: seq<Triple>)
    requires removed != [] && removed[0].subject == HYPHENATED
    ensures ReadUpdate(PayloadText(removed, added)) == None
  {
    hide ReadUpdate, ReadOperation, LinesOf, LineOf, ReadStatements, ReadBlock, Expect;
    var body := LinesOf(removed, true) + (CLOSE_DELETE + InsertText(added));
    Assoc(OPEN_DELETE, LinesOf(removed, true), CLOSE_DELETE + InsertText(added));
    Assoc(OPEN_DELETE + LinesOf(removed, true), CLOSE_DELETE, InsertText(added));
    FirstLineFails(removed, CLOSE_DELETE + InsertText(added));
    DeleteOpens(body);
    BlockOpens("\n" + body, true);
    NoOperation(OPEN_DELETE + body);
  }

  lemma NoOperation(s: string)
    requires Skip(s) != "" && Expect(s, "DELETE").Some?
    requires Expect(Expect(s, "DELETE").value, "WHERE").Some? && ReadBlock(Expect(Expect(s, "DELETE").value, "WHERE").value, true) == None
    ensures ReadUpdate(s) == None
  {
    hide Skip, Expect, ReadBlock;
  }

  lemma FirstLineFails(removed: seq<Triple>, rest: string)
    requires removed != [] && removed[0].subject == HYPHENATED
    ensures ReadStatements("\n" + (LinesOf(removed, true) + rest), true) == None
  {
    hide LineOf, ReadStatements, ReadStatement, Skip;
    var t, more := removed[0], LinesOf(removed[1..], true) + rest;
    assert LinesOf(removed, true) + rest == LineOf(t, true) + more;
    LineStarts(t, true, more, "\n");
    HyphenLine(t, more);
    SameAfterSkip("\n" + (LineOf(t, true) + more), LineOf(t, true) + more, true);
    NoStatements("\n" + (LineOf(t, true) + more));
  }

  lemma NoStatements(s: string)
    requires !("}" <= Skip(s)) && ReadStatement(s, true) == None
    ensures ReadStatements(s, true) == None
  {
    hide Skip, ReadStatement;
  }

  lemma HyphenLine(t: Triple, more: string)
    requires t.subject == HYPHENATED
    ensures ReadStatement(LineOf(t, true) + more, true) == None
  {
    hide ReadTerm, Skip, TermText, PatternTermText, WrittenTerm;
    var p, o := WrittenTerm(t.property, "", "", false), WrittenTerm(t.obj, t.dt, t.language, true);
    var a := WrittenTerm(t.subject, "", "", true);
    var tail := " " + (p + (" " + (o + (" ." + ("\n" + more)))));
    LineIs(t, true);
    LinePieces(a, p, o, more);
    TermStarts(t.subject, "", "", true, tail);
    HyphenEndsVariable(tail);
    HyphenIsWritten();
  }

  lemma HyphenIsWritten()
    ensures WrittenTerm(HYPHENATED, "", "", true) == "?varaddress-1"
  {
    assert HYPHENATED[2..] == "address-1" && "?var" + "address-1" == "?varaddress-1";
  }

  /** The variable ends before the hyphen, with which no verb starts. */
  lemma HyphenEndsVariable(tail: string)
    ensures var r := ReadTerm("?varaddress-1" + tail); r.Some? ==> ReadTerm(Skip(r.value.1)) == None
  {
    var s := "?varaddress-1" + tail;
    var name := "varaddress-1" + tail;
    assert s[0] == '?' && s[1..] == name;
    var n := VarRun(name);
    LettersVary();
    assert name[10] == '-' && forall i | 0 <= i < 10 :: name[i] == "varaddress"[i];
    assert n == 10;
    var rest := name[n..];
    assert rest[0] == '-';
    SkipStays(rest);
  }

  lemma LettersVary()
    ensures !VarChar('-') && forall i | 0 <= i < 10 :: VarChar("varaddress"[i])
  {
    assert forall c | c in "varaddress" :: 'a' <= c <= 'z';
  }
}
