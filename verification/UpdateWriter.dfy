/** The writer that prints SPARQL Update payloads, and what SPARQL reads in them. */
module UpdateText {
  import opened Helpers

  import opened RdfText
  import opened SparqlText

  function Join(parts: seq<string>): string {
    if parts == [] then "" else Join(parts[..|parts| - 1]) + parts[|parts| - 1]
  }

  class UpdateWriter {
    var buf: seq<string>

    constructor ()
      ensures Text() == ""
    {
      buf := [];
    }

    function Text(): string
      reads this
    {
      Join(buf)
    }

    method Push(str: string)
      modifies this
      ensures Text() == old(Text()) + str
    {
      buf := buf + [str];
      assert buf[..|buf| - 1] == old(buf);
    }

    method Term(term: string, dt: string, language: string)
      modifies this
      ensures Text() == old(Text()) + TermText(term, dt, language)
    {
      ghost var before := Text();
      if dt == "" && IsBlank(term) {
        Push("_:bn" + term[2..]);
      } else if dt == "" {
        Push("<");
        Push(EscapeIri(term));
        Push(">");
        Assoc(before, "<", EscapeIri(term));
        Assoc(before, "<" + EscapeIri(term), ">");
      } else {
        Push("\"");
        Push(EscapeLiteral(term));
        Push("\"");
        ghost var quoted := Text();
        if dt == LANG_STRING && language != "" {
          Push("@");
          Push(StripTag(language));
          Assoc(quoted, "@", StripTag(language));
        } else if dt != XSD_STRING {
          Push("^^");
          Push("<");
          Push(EscapeIri(dt));
          Push(">");
          AssocDatatype(quoted, EscapeIri(dt));
        }
        assert Text() == quoted + QualifierText(dt, language);
        AssocLiteral(before, EscapeLiteral(term), QualifierText(dt, language));
      }
    }

    method Triple(t: RdfText.Triple)
      modifies this
      ensures Text() == old(Text()) + TripleText(t)
    {
      ghost var before := Text();
      Push("\t");
      Term(t.subject, "", "");
      Push(" ");
      Term(t.property, "", "");
      Push(" ");
      Term(t.obj, t.dt, t.language);
      Push(" .\n");
      AssocLine(before, TermText(t.subject, "", ""), TermText(t.property, "", ""), TermText(t.obj, t.dt, t.language));
    }

    method Pattern(t: RdfText.Triple)
      modifies this
      ensures Text() == old(Text()) + PatternText(t)
    {
      ghost var before := Text();
      Push("\t");
      if IsBlank(t.subject) {
        Push("?var" + t.subject[2..]);
      } else {
        Term(t.subject, "", "");
      }
      Push(" ");
      Term(t.property, "", "");
      Push(" ");
      if IsBlank(t.obj) && t.dt == "" {
        Push("?var" + t.obj[2..]);
      } else {
        Term(t.obj, t.dt, t.language);
      }
      Push(" .\n");
      AssocLine(before, PatternTermText(t.subject, "", ""), TermText(t.property, "", ""),
                PatternTermText(t.obj, t.dt, t.language));
    }
  }

  lemma AssocLiteral(before: string, value: string, qualifier: string)
    ensures before + "\"" + value + "\"" + qualifier == before + ("\"" + value + "\"" + qualifier)
  {
  }

  lemma AssocDatatype(before: string, iri: string)
    ensures before + "^^" + "<" + iri + ">" == before + ("^^<" + iri + ">")
  {
  }

  lemma AssocLine(before: string, s: string, p: string, o: string)
    ensures before + "\t" + s + " " + p + " " + o + " .\n" == before + ("\t" + s + " " + p + " " + o + " .\n")
  {
  }

  /** The key of a triple is the line a fresh writer prints for it. */
  method Hash(t: Triple) returns (hash: string)
    ensures hash == TripleText(t)
  {
    var tempWriter := new UpdateWriter();
    tempWriter.Triple(t);
    hash := tempWriter.Text();
  }

  // Building a payload ----------------------------------------------------------------------------------

  function StatementsOf(m: map<string, Triple>): set<Statement> {
    set k | k in m :: StatementOf(m[k])
  }

  /** `ts` lists, once per key, the triples of `m` whose keys are not in `todo`. */
  ghost predicate Lists(ts: seq<Triple>, m: map<string, Triple>, todo: set<string>) {
    && |ts| == |m.Keys - todo|
    && (forall t | t in ts :: exists k | k in m && k !in todo :: m[k] == t)
    && (forall k | k in m && k !in todo :: m[k] in ts)
  }

  /** `text` is a payload that deletes `removed` and inserts `added`, each line once, in some order. */
  ghost predicate IsPayload(text: string, removed: map<string, Triple>, added: map<string, Triple>) {
    exists ds, ins ::
      Lists(ds, removed, {}) && Lists(ins, added, {}) && text == PayloadText(ds, ins)
  }

  lemma ListsMore(ts: seq<Triple>, m: map<string, Triple>, todo: set<string>, key: string)
    requires key in m && key !in todo && Lists(ts, m, todo + {key})
    ensures Lists(ts + [m[key]], m, todo)
  {
    assert m.Keys - todo == (m.Keys - (todo + {key})) + {key};
  }

  /** The triples of a map are clean exactly when those of any list of them are. */
  lemma ListsClean(ts: seq<Triple>, m: map<string, Triple>, patterns: bool)
    requires Lists(ts, m, {})
    ensures AllClean(ts, patterns) <==> forall st | st in StatementsOf(m) :: Clean(st, patterns)
  {
    hide Clean, StatementOf;
    if AllClean(ts, patterns) {
      forall st | st in StatementsOf(m) ensures Clean(st, patterns) {
        var k :| k in m && StatementOf(m[k]) == st;
        assert m[k] in ts;
      }
    }
    if forall st | st in StatementsOf(m) :: Clean(st, patterns) {
      forall t | t in ts ensures Clean(StatementOf(t), patterns) {
        var k :| k in m && m[k] == t;
        assert StatementOf(m[k]) in StatementsOf(m);
      }
    }
  }

  function StatementsIn(ts: seq<Triple>): set<Statement> {
    set t | t in ts :: StatementOf(t)
  }

  lemma ListsStatements(ts: seq<Triple>, m: map<string, Triple>)
    requires Lists(ts, m, {})
    ensures StatementsIn(ts) == StatementsOf(m) && |ts| == |m|
  {
    hide StatementOf;
    assert m.Keys - {} == m.Keys;
    forall st | st in StatementsOf(m) ensures st in StatementsIn(ts) {
      var k :| k in m && StatementOf(m[k]) == st;
      assert m[k] in ts;
    }
    forall st | st in StatementsIn(ts) ensures st in StatementsOf(m) {
      var t :| t in ts && StatementOf(t) == st;
      var k :| k in m && m[k] == t;
    }
  }

  /** The payload for two maps, by the lists that were written, and what SPARQL reads in it. */
  ghost predicate Says(text: string, ds: seq<Triple>, ins: seq<Triple>) {
    text == PayloadText(ds, ins) && ReadUpdate(text) == Some(OperationsOf(ds, ins))
  }

  /**
   A payload lists each removed and each added triple once, in some order, and SPARQL reads it as deleting their
   patterns and inserting their statements exactly when every one of them has a form in SPARQL.
   */
  lemma PayloadReadsIff(text: string, removed: map<string, Triple>, added: map<string, Triple>)
    requires IsPayload(text, removed, added)
    ensures exists ds, ins :: Lists(ds, removed, {}) && Lists(ins, added, {}) && text == PayloadText(ds, ins)
    ensures forall ds, ins | Lists(ds, removed, {}) && Lists(ins, added, {}) && text == PayloadText(ds, ins) ::
              Says(text, ds, ins) <==> AllSpoken(StatementsOf(removed), StatementsOf(added))
  {
    hide ReadUpdate, Lists, PayloadText, OperationsOf, StatementsOf, AllClean, Clean;
    forall ds, ins | Lists(ds, removed, {}) && Lists(ins, added, {}) && text == PayloadText(ds, ins)
      ensures Says(text, ds, ins) <==> AllSpoken(StatementsOf(removed), StatementsOf(added)) {
      UpdateReadsIff(ds, ins);
      ListsClean(ds, removed, true);
      ListsClean(ins, added, false);
    }
  }

  /** Every statement has a form in SPARQL: those to delete as patterns, those to insert as they are. */
  ghost predicate AllSpoken(removed: set<Statement>, added: set<Statement>) {
    && (forall st | st in removed :: Clean(st, true))
    && (forall st | st in added :: Clean(st, false))
  }

  method WriteLines(writer: UpdateWriter, m: map<string, Triple>, patterns: bool) returns (ghost ts: seq<Triple>)
    modifies writer
    ensures Lists(ts, m, {})
    ensures writer.Text() == old(writer.Text()) + LinesOf(ts, patterns)
  {
    ts := [];
    var todo := m.Keys;
    assert old(writer.Text()) + "" == old(writer.Text());
    while todo != {}
      invariant todo <= m.Keys
      invariant Lists(ts, m, todo)
      invariant writer.Text() == old(writer.Text()) + LinesOf(ts, patterns)
    {
      ghost var before := todo;
      var triple :| triple in todo;
      todo := todo - {triple};
      ghost var text := writer.Text();
      if patterns {
        writer.Pattern(m[triple]);
      } else {
        writer.Triple(m[triple]);
      }
      assert writer.Text() == text + LineOf(m[triple], patterns);
      LinesOfMore(ts, m[triple], patterns);
      Assoc(old(writer.Text()), LinesOf(ts, patterns), LineOf(m[triple], patterns));
      assert todo + {triple} == before;
      ListsMore(ts, m, todo, triple);
      ts := ts + [m[triple]];
    }
  }

  lemma {:induction false} LinesOfMore(ts: seq<Triple>, t: Triple, patterns: bool)
    ensures LinesOf(ts + [t], patterns) == LinesOf(ts, patterns) + LineOf(t, patterns)
    decreases |ts|
  {
    hide LineOf;
    if ts == [] {
      assert [t][1..] == [] && [] + [t] == [t];
      assert LinesOf([t], patterns) == LineOf(t, patterns) + "";
    } else {
      assert (ts + [t])[1..] == ts[1..] + [t];
      LinesOfMore(ts[1..], t, patterns);
      Assoc(LineOf(ts[0], patterns), LinesOf(ts[1..], patterns), LineOf(t, patterns));
    }
  }

  /** Keys are visited in any order. */
  method AsSparqlUpdate(removed: map<string, Triple>, added: map<string, Triple>) returns (text: string)
    ensures IsPayload(text, removed, added)
  {
    var writer := new UpdateWriter();
    ghost var ds, ins: seq<Triple> := [], [];
    if removed != map[] {
      writer.Push(OPEN_DELETE);
      ds := WriteLines(writer, removed, true);
      writer.Push(CLOSE_DELETE);
      assert "" + OPEN_DELETE == OPEN_DELETE;
    }
    ghost var before := writer.Text();
    assert before == DeleteText(ds);
    if added != map[] {
      writer.Push(OPEN_INSERT);
      ins := WriteLines(writer, added, false);
      writer.Push("}\n");
      writer.Push("WHERE {\n");
      writer.Push("};\n");
      AssocInsert(before, LinesOf(ins, false));
    }
    text := writer.Text();
    assert text == DeleteText(ds) + InsertText(ins);
    if text == "" {
      text := NO_CHANGE;
    }
    assert Lists(ds, removed, {}) && Lists(ins, added, {});
    assert text == PayloadText(ds, ins);
  }

  lemma AssocInsert(before: string, lines: string)
    ensures before + OPEN_INSERT + lines + "}\n" + "WHERE {\n" + "};\n" == before + (OPEN_INSERT + lines + CLOSE_INSERT)
  {
    Assoc(before, OPEN_INSERT, lines);
    var w := OPEN_INSERT + lines;
    Assoc(before + w, "}\n", "WHERE {\n");
    Assoc(before + w, "}\n" + "WHERE {\n", "};\n");
    assert "}\n" + "WHERE {\n" + "};\n" == CLOSE_INSERT;
    Assoc(before, w, CLOSE_INSERT);
  }
}
