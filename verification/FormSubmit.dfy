/** Reading the triples of a form and submitting its changes. */
module FormSubmit {
  import opened Helpers
  import opened RdfText
  import opened Graphs
  import opened Renamings
  import opened GraphUpdate
  import opened SparqlText
  import opened UpdateText
  import opened TripleDiff

  /** A triple reported by the RDFa parser, and whether its element lies below a self-reference. */
  datatype Emission = Emission(triple: Triple, shadowed: bool)

  predicate OfForm(subject: string, formSubject: string) {
    subject == formSubject || StartsWith(subject, formSubject + "#")
  }

  /** The subject of emission `i` is the form's, or a blank object of an earlier kept emission. */
  ghost predicate Keeps(emissions: seq<Emission>, formSubject: string, i: nat)
    requires i < |emissions|
    decreases i
  {
    && !emissions[i].shadowed
    && (OfForm(emissions[i].triple.subject, formSubject) || Introduced(emissions, formSubject, i, emissions[i].triple.subject))
  }

  ghost predicate Introduced(emissions: seq<Emission>, formSubject: string, i: nat, subject: string)
    requires i <= |emissions|
    decreases i, 0
  {
    exists j: nat | j < i ::
      Keeps(emissions, formSubject, j) && BlankObject(emissions[j].triple) && emissions[j].triple.obj == subject
  }

  ghost function KeptLines(emissions: seq<Emission>, formSubject: string, n: nat): set<string>
    requires n <= |emissions|
  {
    set i: nat | i < n && Keeps(emissions, formSubject, i) :: TripleText(emissions[i].triple)
  }

  /** The form's resource, or a fragment of it. */
  ghost predicate Own(subject: string, formSubject: string) {
    subject == formSubject || exists fragment :: subject == formSubject + "#" + fragment
  }

  /** An object that is a blank node: it starts with "_:" and has no datatype. */
  predicate Links(t: Triple, subject: string) {
    t.dt == "" && t.obj == subject && |subject| >= 2 && subject[..2] == "_:"
  }

  /**
   Emissions in order, none below a self-reference: the first is about the form, and each other one about the
   blank object of the one before.
   */
  ghost predicate IsPath(emissions: seq<Emission>, formSubject: string, path: seq<nat>) {
    && path != []
    && (forall k | 0 <= k < |path| :: path[k] < |emissions| && !emissions[path[k]].shadowed)
    && Own(emissions[path[0]].triple.subject, formSubject)
    && (forall j, k | 0 <= j < k < |path| :: path[j] < path[k])
    && (forall k | 0 < k < |path| :: Links(emissions[path[k - 1]].triple, emissions[path[k]].triple.subject))
  }

  ghost predicate LeadsTo(emissions: seq<Emission>, formSubject: string, path: seq<nat>, i: nat) {
    IsPath(emissions, formSubject, path) && path[|path| - 1] == i
  }

  /** The lines that paths from the form lead to. */
  ghost predicate Reaches(emissions: seq<Emission>, formSubject: string, line: string) {
    exists path: seq<nat>, i: nat :: LeadsTo(emissions, formSubject, path, i) && TripleText(emissions[i].triple) == line
  }

  /** Records exactly the emissions that paths from the form lead to, each under its line. */
  method ParseRDF(formSubject: string, emissions: seq<Emission>) returns (triples: TripleMap)
    requires forall e | e in emissions :: Writable(e.triple)
    ensures fresh(triples) && Keyed(triples.entries)
    ensures forall line :: line in triples.entries <==> Reaches(emissions, formSubject, line)
    ensures triples.entries.Keys == KeptLines(emissions, formSubject, |emissions|)
  {
    hide Writable, StatementOf, KeptLines, Keeps, Introduced, OfForm, TripleText, IsBlank, Reaches;
    NothingKept(emissions, formSubject);
    LinesReached(emissions, formSubject);
    triples := new TripleMap();
    var usedBlanks: set<string> := {};
    var n := 0;
    while n < |emissions|
      invariant n <= |emissions| && fresh(triples) && Keyed(triples.entries)
      invariant triples.entries.Keys == KeptLines(emissions, formSubject, n)
      invariant forall s :: s in usedBlanks <==> Introduced(emissions, formSubject, n, s)
    {
      var t := emissions[n].triple;
      if (OfForm(t.subject, formSubject) || t.subject in usedBlanks) && !emissions[n].shadowed {
        var hash := Hash(t);
        triples.entries := triples.entries[hash := t];
        if t.dt == "" && IsBlank(t.obj) {
          usedBlanks := usedBlanks + {t.obj};
        }
      }
      OneMoreLine(emissions, formSubject, n);
      n := n + 1;
    }
  }

  lemma NothingKept(emissions: seq<Emission>, formSubject: string)
    ensures KeptLines(emissions, formSubject, 0) == {}
    ensures forall s :: !Introduced(emissions, formSubject, 0, s)
  {
  }

  /** What one emission adds to the lines and to the blank objects. */
  lemma OneMoreLine(emissions: seq<Emission>, formSubject: string, n: nat)
    requires n < |emissions|
    ensures var t, kept := emissions[n].triple, Keeps(emissions, formSubject, n);
            && (kept <==> !emissions[n].shadowed
                          && (OfForm(t.subject, formSubject) || Introduced(emissions, formSubject, n, t.subject)))
            && KeptLines(emissions, formSubject, n + 1)
               == KeptLines(emissions, formSubject, n) + (if kept then {TripleText(t)} else {})
            && forall s :: Introduced(emissions, formSubject, n + 1, s) <==>
                 Introduced(emissions, formSubject, n, s) || (kept && BlankObject(t) && t.obj == s)
  {
    hide TripleText, OfForm, BlankObject;
    var t, kept := emissions[n].triple, Keeps(emissions, formSubject, n);
    var before, after := KeptLines(emissions, formSubject, n), KeptLines(emissions, formSubject, n + 1);
    forall k | k in after ensures k in before + (if kept then {TripleText(t)} else {}) {
      var i: nat :| i < n + 1 && Keeps(emissions, formSubject, i) && TripleText(emissions[i].triple) == k;
    }
  }

  // What is kept ------------------------------------------------------------------------------------------------------

  lemma FormIsOwn(subject: string, formSubject: string)
    ensures OfForm(subject, formSubject) <==> Own(subject, formSubject)
  {
    var hash := formSubject + "#";
    if StartsWith(subject, hash) {
      assert subject == hash + subject[|hash|..];
    }
  }

  lemma BlankIsLinked(t: Triple, subject: string)
    ensures Links(t, subject) <==> BlankObject(t) && t.obj == subject
  {
  }

  /** The rule of the loop finds what paths lead to. */
  lemma {:induction false} KeptIsReached(emissions: seq<Emission>, formSubject: string, i: nat)
    requires i < |emissions|
    ensures Keeps(emissions, formSubject, i) <==> exists path: seq<nat> :: LeadsTo(emissions, formSubject, path, i)
    decreases i
  {
    hide OfForm, Own, Links, BlankObject;
    var subject := emissions[i].triple.subject;
    FormIsOwn(subject, formSubject);
    if Keeps(emissions, formSubject, i) {
      if OfForm(subject, formSubject) {
        assert LeadsTo(emissions, formSubject, [i], i);
      } else {
        assert Introduced(emissions, formSubject, i, subject);
        var j: nat :| j < i && Keeps(emissions, formSubject, j) && BlankObject(emissions[j].triple)
                      && emissions[j].triple.obj == subject;
        KeptIsReached(emissions, formSubject, j);
        var path: seq<nat> :| LeadsTo(emissions, formSubject, path, j);
        BlankIsLinked(emissions[j].triple, subject);
        PathGoesOn(emissions, formSubject, path, j, i);
      }
    }
    if path: seq<nat> :| LeadsTo(emissions, formSubject, path, i) {
      if |path| > 1 {
        var before := path[..|path| - 1];
        var j := path[|path| - 2];
        assert before[|before| - 1] == j && before[0] == path[0];
        assert LeadsTo(emissions, formSubject, before, j);
        KeptIsReached(emissions, formSubject, j);
        BlankIsLinked(emissions[j].triple, subject);
        assert Introduced(emissions, formSubject, i, subject);
      }
    }
  }

  lemma PathGoesOn(emissions: seq<Emission>, formSubject: string, path: seq<nat>, j: nat, i: nat)
    requires LeadsTo(emissions, formSubject, path, j) && j < i < |emissions| && !emissions[i].shadowed
    requires Links(emissions[j].triple, emissions[i].triple.subject)
    ensures LeadsTo(emissions, formSubject, path + [i], i)
  {
    hide Own, Links;
    var longer := path + [i];
    assert forall k | 0 <= k < |path| :: path[k] <= j;
  }

  lemma LinesReached(emissions: seq<Emission>, formSubject: string)
    ensures forall line :: line in KeptLines(emissions, formSubject, |emissions|) <==> Reaches(emissions, formSubject, line)
  {
    hide Keeps, IsPath, TripleText;
    forall i: nat | i < |emissions|
      ensures Keeps(emissions, formSubject, i) <==> exists path: seq<nat> :: LeadsTo(emissions, formSubject, path, i)
    {
      KeptIsReached(emissions, formSubject, i);
    }
    PathsEnd(emissions, formSubject);
  }

  lemma PathsEnd(emissions: seq<Emission>, formSubject: string)
    ensures forall path: seq<nat>, i: nat | LeadsTo(emissions, formSubject, path, i) :: i < |emissions|
  {
  }

  /**
   What a form holds. Every emission about the form's resource or a fragment of it, and every later one about the
   blank object of one that is there.
   */
  lemma OwnIsKept(emissions: seq<Emission>, formSubject: string, i: nat, fragment: string)
    requires i < |emissions| && !emissions[i].shadowed
    requires emissions[i].triple.subject == formSubject || emissions[i].triple.subject == formSubject + "#" + fragment
    ensures Reaches(emissions, formSubject, TripleText(emissions[i].triple)) && LeadsTo(emissions, formSubject, [i], i)
  {
    hide TripleText;
    assert LeadsTo(emissions, formSubject, [i], i);
  }

  lemma BlankObjectIsKept(emissions: seq<Emission>, formSubject: string, path: seq<nat>, j: nat, i: nat, name: string)
    requires LeadsTo(emissions, formSubject, path, j) && j < i < |emissions| && !emissions[i].shadowed
    requires emissions[j].triple.dt == "" && emissions[j].triple.obj == "_:" + name == emissions[i].triple.subject
    ensures Reaches(emissions, formSubject, TripleText(emissions[i].triple)) && LeadsTo(emissions, formSubject, path + [i], i)
  {
    hide TripleText;
    PathGoesOn(emissions, formSubject, path, j, i);
  }

  /** And nothing about any other resource. */
  lemma OthersAreNotKept(emissions: seq<Emission>, formSubject: string, t: Triple)
    requires forall e | e in emissions :: Writable(e.triple)
    requires Writable(t) && !(|t.subject| >= 2 && t.subject[..2] == "_:")
    requires t.subject != formSubject && forall fragment :: t.subject != formSubject + "#" + fragment
    ensures !Reaches(emissions, formSubject, TripleText(t))
  {
    hide Writable, TripleText, IsBlank;
    if path: seq<nat>, i: nat :| LeadsTo(emissions, formSubject, path, i) && TripleText(emissions[i].triple) == TripleText(t) {
      assert emissions[i] in emissions;
      SameTextIffSameStatement(emissions[i].triple, t);
      hide LeadsTo;
      SameSubject(emissions[i].triple, t);
      PathSubject(emissions, formSubject, path, i);
      assert false;
    }
  }

  lemma SameSubject(t: Triple, u: Triple)
    requires StatementOf(t) == StatementOf(u) && !(|u.subject| >= 2 && u.subject[..2] == "_:")
    ensures t.subject == u.subject
  {
  }

  lemma PathSubject(emissions: seq<Emission>, formSubject: string, path: seq<nat>, i: nat)
    requires LeadsTo(emissions, formSubject, path, i)
    ensures i < |emissions|
    ensures var subject := emissions[i].triple.subject; Own(subject, formSubject) || (|subject| >= 2 && subject[..2] == "_:")
  {
    if |path| > 1 {
      assert Links(emissions[path[|path| - 2]].triple, emissions[path[|path| - 1]].triple.subject);
    }
  }

  // The statements of a form ------------------------------------------------------------------------------------------

  /** Every blank subject of a parsed form is also an object in it. */
  lemma ParsedSubjectsIntroduced(formSubject: string, emissions: seq<Emission>, m: Entries)
    requires forall e | e in emissions :: Writable(e.triple)
    requires !IsBlank(formSubject)
    requires Keyed(m) && m.Keys == KeptLines(emissions, formSubject, |emissions|)
    ensures SubjectsIntroduced(StatementsOf(m))
  {
    hide StatementOf, Writable, OfForm, KeptLines, IsBlank, Keyed;
    forall a | a in StatementsOf(m) && a.subject.Blank? ensures exists o | o in StatementsOf(m) :: o.obj == a.subject {
      var k :| k in m && StatementOf(m[k]) == a;
      var i := KeptAs(emissions, formSubject, k);
      var t := emissions[i].triple;
      SameLineSameStatement(m, k, t);
      BlankPositions(t);
      if OfForm(t.subject, formSubject) {
        BlankOfForm(t.subject, formSubject);
      }
      var j: nat :| j < i && Keeps(emissions, formSubject, j) && BlankObject(emissions[j].triple)
                    && emissions[j].triple.obj == t.subject;
      var u := emissions[j].triple;
      KeptIn(emissions, formSubject, j);
      SameLineSameStatement(m, TripleText(u), u);
      BlankPositions(u);
      assert StatementOf(u) in StatementsOf(m);
    }
  }

  lemma KeptAs(emissions: seq<Emission>, formSubject: string, k: string) returns (i: nat)
    requires k in KeptLines(emissions, formSubject, |emissions|)
    ensures i < |emissions| && Keeps(emissions, formSubject, i) && TripleText(emissions[i].triple) == k
  {
    i :| i < |emissions| && Keeps(emissions, formSubject, i) && TripleText(emissions[i].triple) == k;
  }

  lemma KeptIn(emissions: seq<Emission>, formSubject: string, j: nat)
    requires j < |emissions| && Keeps(emissions, formSubject, j)
    ensures TripleText(emissions[j].triple) in KeptLines(emissions, formSubject, |emissions|)
  {
  }

  lemma SameLineSameStatement(m: Entries, k: string, t: Triple)
    requires Keyed(m) && k in m && Writable(t) && TripleText(t) == k
    ensures StatementOf(m[k]) == StatementOf(t)
  {
    SameTextIffSameStatement(m[k], t);
  }

  lemma BlankPositions(t: Triple)
    ensures StatementOf(t).subject.Blank? <==> IsBlank(t.subject)
    ensures IsBlank(t.subject) ==> StatementOf(t).subject == Blank(t.subject[2..])
    ensures BlankObject(t) ==> IsBlank(t.obj) && StatementOf(t).obj == Blank(t.obj[2..])
  {
  }

  lemma BlankOfForm(subject: string, formSubject: string)
    requires IsBlank(subject) && OfForm(subject, formSubject)
    ensures IsBlank(formSubject)
  {
    var p := formSubject + "#";
    assert p[|formSubject|] == '#';
    assert subject != formSubject ==> forall i | 0 <= i < |p| :: subject[i] == p[i];
    assert forall i | 0 <= i < |formSubject| :: p[i] == formSubject[i];
  }

  /**
   Submitting a form. The payload lists, once each, the statements tied to a difference, and SPARQL reads it as
   deleting the stored ones, up to variables, and inserting the revised ones, exactly when each of them has a form
   in SPARQL. When no blank node that the form never describes is used twice, this update of the stored graph
   yields the revised one up to isomorphism.
   */
  method SubmitRDFForm(formSubject: string, stored: TripleMap, emissions: seq<Emission>)
    returns (payload: string, ghost revised: Graph, ghost deleted: seq<Triple>, ghost inserted: seq<Triple>)
    requires forall e | e in emissions :: Writable(e.triple)
    requires Keyed(stored.entries) && !IsBlank(formSubject)
    ensures payload == PayloadText(deleted, inserted)
    ensures var s := StatementsOf(stored.entries);
            && Once(deleted, Moved(s, revised) * s) && Once(inserted, Moved(s, revised) * revised)
            && (ReadUpdate(payload) == Some(OperationsOf(deleted, inserted))
                <==> AllSpoken(Moved(s, revised) * s, Moved(s, revised) * revised))
            && (LeavesUnshared(revised) ==> Rebuilds(s, revised))
    ensures exists m: Entries ::
              && Keyed(m) && revised == StatementsOf(m) && m.Keys == KeptLines(emissions, formSubject, |emissions|)
              && forall line :: line in m <==> Reaches(emissions, formSubject, line)
  {
    hide ReadUpdate, Moved, Writable, StatementOf, Rebuilds, LeavesUnshared, KeptLines, AllSpoken, Lists, PayloadText,
      OperationsOf, Reaches;
    var after := ParseRDF(formSubject, emissions);
    revised := StatementsOf(after.entries);
    var removed, added := RemovedAndAdded(stored, after);
    payload := AsSparqlUpdate(removed.entries, added.entries);
    PayloadReadsIff(payload, removed.entries, added.entries);
    deleted, inserted :| Lists(deleted, removed.entries, {}) && Lists(inserted, added.entries, {})
                         && payload == PayloadText(deleted, inserted);
    EachOnce(deleted, removed.entries);
    EachOnce(inserted, added.entries);
    ParsedSubjectsIntroduced(formSubject, emissions, after.entries);
    UnsharedRebuilds(StatementsOf(stored.entries), revised);
  }

  /** The triples state these statements, and no two of them the same. */
  predicate Once(ts: seq<Triple>, g: Graph) {
    StatementsIn(ts) == g && |ts| == |g|
  }

  lemma EachOnce(ts: seq<Triple>, m: Entries)
    requires Lists(ts, m, {}) && Keyed(m)
    ensures Once(ts, StatementsOf(m))
  {
    hide StatementOf, Lists, Keyed;
    ListsStatements(ts, m);
    KeysAndStatements(m, m.Keys);
    assert (set k | k in m.Keys :: StatementOf(m[k])) == StatementsOf(m);
  }

  /** As many statements as keys. */
  lemma {:induction false} KeysAndStatements(m: Entries, keys: set<string>)
    requires Keyed(m) && keys <= m.Keys
    ensures |set k | k in keys :: StatementOf(m[k])| == |keys|
    decreases |keys|
  {
    hide StatementOf, Keyed;
    if keys != {} {
      var k :| k in keys;
      var others, st := keys - {k}, StatementOf(m[k]);
      KeysAndStatements(m, others);
      forall l | l in others ensures StatementOf(m[l]) != st {
        KeyedStatements(m, m);
      }
      var more := set l | l in others :: StatementOf(m[l]);
      assert (set l | l in keys :: StatementOf(m[l])) == more + {st};
    }
  }

  /** Forms whose undescribed blank nodes are each used once are rebuilt from any stored graph. */
  lemma UnsharedRebuilds(stored: Graph, revised: Graph)
    requires SubjectsIntroduced(revised)
    ensures LeavesUnshared(revised) ==> Rebuilds(stored, revised)
  {
    if LeavesUnshared(revised) {
      IntroducedHoldsTogether(revised);
      TogetherRebuilds(stored, revised);
    }
  }
}
